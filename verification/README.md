# fp collections and iterators in Dafny

A Dafny model of the core of a small Go library of functional collections:

- the persistent cons list (`List`) and the mutable head/tail linked list;
- the iterator family: the slice iterator, the integer range iterator, the lazy
  `Map` adapter, the map-entry iterator and the always-empty iterator;
- the slice helpers and the map (`Dict`) helpers;
- the `Option` and `Either` sum types.

Each Go file is one Dafny module:

| module | Go file |
|---|---|
| `PersistentList` | src/list/list.go |
| `LinkedList` | src/list/linked_list.go |
| `SliceIterator` | src/iter/slice_iter.go |
| `RangeIterator` | src/iter/range_iter.go |
| `MapOpIterator` | src/iter/map_op_iter.go |
| `MapEntryIterator` | src/iter/map_iter.go |
| `EmptyIterator` | src/iter/empty_iter.go |
| `SliceOps` | src/collections/slice_ops.go |
| `ListOps` | src/collections/list/slice_ops.go |
| `DictOps` | src/collections/dict/map_ops.go |
| `Optional` | src/optional.go |
| `Eithers` | src/either.go |

Three shared modules support them:

- **`Seqs`** holds the reference definitions the operations are specified against. These are a left fold that peels the last element, `Filter`, `Flatten`, `MapSeq`, `IndexOf`, `Reversed`, and `Enumerates`, which describes one Go map iteration order.
- **`GoRuntime`** holds Go's truncating division `Quot` and the library's error values. It also holds `GoType`: a type's zero value plus the nil-or-pointer guard that Option and Either consult.
- **`IterProtocol`** describes the `Iter` interface as a record of transition functions. `Pull` (n calls of `Next`) and `Available` (n successful `HasNext` checks) are stated against it.

Go pointers and in-place mutation become values:

- Every method that mutates its receiver returns `Step(result, newState)`.
- A `*List` is `Nil | Node(x, xs, size)`.
- The linked list is its chain of values. Its `tail` field records whether the tail pointer is the chain's last node or a node that has been unlinked.
- A Go map loop visits keys in an unspecified order. That order is a parameter `order` with `Enumerates(order, keys)`. Every property that does not depend on the order is proved for all orders.

The model follows the code as written. Behaviour worth knowing about:

- **Slice iterator `Count`.** It empties the slice but keeps `size`, so `Size` still reports the original length afterwards (`SliceIterator.CountLeavesSizeStale`). A later `Clone` copies `size` values out of an empty slice and so yields zero values (`SliceIterator.CloneAfterCount`).
- **Slice iterator `Take(n)`, range iterator `Take(n, step)`, and list `Split`, `Reverse`, `Prepend` and `PrependList`.** Each differs from its documented behaviour. Each is a row under Findings, with the as-written member and a corrected member beside it.

## Model

| member | source | states |
|---|---|---|
| Seqs.FoldLCons | src/collections/slice_ops.go:127-132 | consuming the first element of a sequence into the accumulator agrees with the reference left fold, which is what lets the front-consuming Go loops meet the fold specification |
| Seqs.FilterAppend | src/collections/list/slice_ops.go:185-193 | filtering distributes over concatenation |
| Seqs.FilterMembership | src/collections/list/slice_ops.go:185-193 | a value survives the filter iff it occurs in the input and satisfies the predicate |
| Seqs.FlattenSnoc | src/collections/list/slice_ops.go:142-150 | appending one inner list appends its elements to the flattened result |
| Seqs.ReversedReversed | src/list/list.go:204-214 | reversing a sequence twice gives it back |
| GoRuntime.QuotTruncates | src/iter/range_iter.go:52 | Go's integer division truncates toward zero: for every non-zero divisor the remainder a - Quot(a, b) * b is smaller than b in absolute value and is zero or has the sign of the dividend |
| GoRuntime.QuotUnique | src/iter/range_iter.go:52 | those two remainder conditions determine the quotient: any q meeting them is Quot(a, b), so together with QuotTruncates they characterise it |
| GoRuntime.QuotNonNegative | src/iter/range_iter.go:52 | on a non-negative dividend and a positive divisor truncation agrees with Euclidean division |
| GoRuntime.QuotNegative | src/iter/range_iter.go:52 | a negative dividend over a positive divisor gives a quotient of at most zero |
| SliceOps.Append | src/collections/slice_ops.go:47-52 | the result is the receiver followed by the new element; the receiver is left as it was |
| SliceOps.Prepend | src/collections/slice_ops.go:55-60 | the result is the new element followed by the receiver |
| SliceOps.Take | src/collections/slice_ops.go:63-72 | a negative n gives the empty slice, otherwise the first min(n, len) elements |
| SliceOps.Map | src/collections/slice_ops.go:86-92 | the loop produces the mapper applied to every element, in order, same length |
| SliceOps.FoldLeft | src/collections/slice_ops.go:127-132 | the front-to-back loop computes the left fold from the seed |
| SliceOps.Reduce | src/collections/slice_ops.go:107-110 | Reduce is the left fold from the zero value |
| ListOps.Flatten | src/collections/list/slice_ops.go:142-150 | the loop yields the inner lists concatenated in order; empty inner lists contribute nothing |
| ListOps.FlattenMembership | src/collections/list/slice_ops.go:142-150 | a value is in the flattened list iff it is in one of the inner lists |
| ListOps.FlatMap | src/collections/list/slice_ops.go:166-168 | FlatMap is Flatten of Map |
| ListOps.Filter | src/collections/list/slice_ops.go:185-193 | the loop keeps exactly the elements satisfying the predicate, in order; membership in the result is iff present and kept |
| DictOps.Bindings | src/collections/dict/map_ops.go:208-213 | a range loop over the map visits every binding of the map exactly once and nothing else: one pair per key, each pairing a key with its value, no key twice |
| DictOps.NewDict | src/collections/dict/map_ops.go:36-39 | a new dict has no keys |
| DictOps.Add | src/collections/dict/map_ops.go:55-58 | the key now maps to the value and every other key keeps its binding |
| DictOps.Remove | src/collections/dict/map_ops.go:61-66 | the key is gone and the remaining keys keep their values; an absent key leaves the dict as it was |
| DictOps.AddRemove | src/collections/dict/map_ops_test.go:17-29 | adding then removing a key leaves the dict without that key; for an absent key it restores the original dict |
| DictOps.FoldLeft | src/collections/dict/map_ops.go:208-213 | the accumulator is threaded once through every binding, in iteration order |
| DictOps.FoldCollects | src/collections/dict/map_ops.go:69-82 | a fold whose step only appends one projected value collects those projections in order |
| DictOps.Keys | src/collections/dict/map_ops.go:69-74 | the keys come out in iteration order: one entry per key, no duplicates, exactly the key set |
| DictOps.Values | src/collections/dict/map_ops.go:77-82 | the values come out in iteration order, position i holding the value of the i-th visited key |
| DictOps.FoldCollectsPairs | src/collections/dict/map_ops.go:98-123 | a fold that appends to two lists at once collects both projections in order |
| DictOps.KeysValues | src/collections/dict/map_ops.go:98-123 | the two returned lists are parallel: keys[i] maps to values[i], and the keys are exactly the key set |
| DictOps.PrefixMembers | src/collections/dict/map_ops.go:133-139 | the keys visited after i iterations are exactly the first i keys of the order |
| DictOps.PrefixAll | src/collections/dict/map_ops.go:133-139 | after the whole loop every key of the map has been visited |
| DictOps.CopyStep | src/collections/dict/map_ops.go:133-139 | copying one more binding keeps the copy invariant |
| DictOps.CopyAll | src/collections/dict/map_ops.go:152-159 | a copy loop adds every binding of the source to the target, overriding shared keys and keeping the target's other bindings |
| DictOps.Clone | src/collections/dict/map_ops.go:133-139 | the clone holds exactly the same bindings |
| DictOps.Concat | src/collections/dict/map_ops.go:143-160 | the result is the union with the other dict winning on shared keys, including the early returns for an empty side |
| DictOps.Map | src/collections/dict/map_ops.go:177-183 | the result has the same keys, each bound to fn(key, value) |
| SliceIterator.FromSlice | src/iter/slice_iter.go:34-44 | a new iterator holds the input, its size matches the length, and HasNext holds iff the input is non-empty |
| SliceIterator.Next | src/iter/slice_iter.go:47-57 | Next pops the first remaining element, keeps the size in step and counts it as consumed; on an exhausted iterator it returns zero and changes nothing |
| SliceIterator.Count | src/iter/slice_iter.go:60-65 | Count reports the remaining length and exhausts the iterator, leaving size untouched |
| SliceIterator.AdvanceNext | src/iter/slice_iter.go:47-57 | one Next followed by k-1 more is the same as advancing k positions |
| SliceIterator.NextYieldsInOrder | src/iter/slice_iter.go:39-57 | k calls of Next succeed and return the first k remaining elements in order |
| SliceIterator.FromSliceRoundTrip | src/iter/slice_iter.go:34-77 | ToSlice of FromSlice is the input, Size is its length, Next keeps size in sync, and pulling everything yields the input |
| SliceIterator.CountLeavesSizeStale | src/iter/slice_iter.go:60-70 | after Count, HasNext is false and a second Count reports 0, but Size still reports the old length |
| SliceIterator.TakeLoop | src/iter/slice_iter.go:84-89 | the take loop moves the next TakeCount elements, in order, and advances the receiver past them |
| SliceIterator.Take | src/iter/slice_iter.go:82-92 | Take returns a new iterator over the elements it consumed, and the receiver is advanced by that many |
| SliceIterator.FilterLoop | src/iter/slice_iter.go:97-104 | the filter loop collects exactly the matching remaining elements, in order, and exhausts the receiver |
| SliceIterator.Filter | src/iter/slice_iter.go:95-107 | Filter returns an iterator over the matching elements in order and leaves the receiver exhausted |
| SliceIterator.MapOverSlice | src/iter/slice_iter.go:110-113 | pulling n values through the lazy Map of a slice iterator yields fn of its first n elements |
| SliceIterator.FoldLoop | src/iter/slice_iter.go:117-121 | the folding loop computes the left fold of the remaining elements and exhausts the receiver |
| SliceIterator.Reduce | src/iter/slice_iter.go:116-123 | Reduce is the left fold of the remaining elements from the zero value; the receiver ends exhausted |
| SliceIterator.Fold | src/iter/slice_iter.go:127-129 | Fold gives the same result as Reduce |
| SliceIterator.FoldLeft | src/iter/slice_iter.go:133-139 | FoldLeft is the left fold of the remaining elements from the seed; the receiver ends exhausted |
| SliceIterator.Clone | src/iter/slice_iter.go:192-200 | the clone's buffer has the cached size as its length, holds the remaining elements and pads with zeros; size and current are copied |
| SliceIterator.CloneIsCopy | src/iter/slice_iter.go:192-200 | on an iterator whose size is in sync with its slice, Clone is an exact copy |
| SliceIterator.CloneAfterCount | src/iter/slice_iter.go:192-200 | after Count, the stale size makes Clone produce a buffer of zero values |
| SliceIterator.DropLoop | src/iter/slice_iter.go:212-226 | the drop loop skips the first n elements, collects the rest and exhausts the receiver |
| SliceIterator.Drop | src/iter/slice_iter.go:203-229 | n outside [0, size) gives an empty iterator and leaves the receiver alone; otherwise the result is what follows the first n elements and the receiver is exhausted |
| SliceIterator.ContainsLoop | src/iter/slice_iter.go:233-238 | the scan answers true iff the element remains, stopping just after its first occurrence; otherwise the receiver is exhausted |
| SliceIterator.Contains | src/iter/slice_iter.go:232-240 | Contains is true iff the element remains; the receiver is consumed up to and including the first match |
| SliceIterator.Slice | src/iter/slice_iter.go:149-189 | Slice copies positions from..until (clamped to size) into a fresh iterator; bad bounds give an empty one; the receiver is not consumed |
| SliceIterator.TakeAfterTwoNexts | src/iter/slice_iter_test.go:75-101 | after two Next calls on 1..9, Take(3) yields 3, 4, 5 and Take(20) yields 3 through 9 |
| SliceIterator.TakeFromFreshMovesTwoMore | src/iter/slice_iter.go:84 | on a fresh iterator over 1..9, Take(3) takes 1 through 5, because the bound counts the position rather than the elements taken |
| SliceIterator.TakeFixedLoop | src/iter/slice_iter.go:79-92 | the corrected loop, counting the elements taken, appends min(remaining, n - taken) elements and advances the receiver by that many |
| SliceIterator.TakeFixed | src/iter/slice_iter.go:79-92 | the corrected Take gives nothing for n <= 0, the first n elements when n is within the size, and all remaining elements otherwise; the receiver is advanced by the number taken |
| SliceIterator.FilterThenMap | src/iter/slice_iter_test.go:125-162 | filtering the evens of 1..5 and mapping by doubling yields 4 then 8, after which the adapter has no next value |
| SliceIterator.EvensOfOneToFive | src/iter/slice_iter_test.go:103-123 | the even values of 1..5 are 2 and 4 |
| SliceIterator.DoublingTwoAndFour | src/iter/slice_iter_test.go:125-162 | the lazy map over [2, 4] yields 4 and 8, after which it has no next value |
| RangeIterator.Range | src/iter/range_iter.go:41-54 | end < start and a negative step are rejected with an error and an all-zero iterator; otherwise size is the truncated quotient (end - start) / step plus one |
| RangeIterator.Next | src/iter/range_iter.go:57-76 | when a value remains, Next returns the current start, advances by step and decrements size; otherwise it returns 0 and changes nothing |
| RangeIterator.Count | src/iter/range_iter.go:79-87 | Count reports the values left from the current start and then sets size to 0 |
| RangeIterator.Drained | src/iter/range_iter.go:57-62 | draining ends in a state where HasNext fails, with end and step unchanged |
| RangeIterator.ToSliceLoop | src/iter/range_iter.go:249-256 | the loop appends every value a HasNext/Next loop produces and drains the iterator |
| RangeIterator.ToSlice | src/iter/range_iter.go:249-256 | on a non-negative size (the capacity of the allocation), ToSlice returns exactly the values the iterator yields and drains it |
| RangeIterator.ProgressionCons | src/iter/range_iter.go:67-76 | an arithmetic progression is its start followed by the progression one step later |
| RangeIterator.YieldShape | src/iter/range_iter.go:57-76 | with a positive step the yielded values form the progression start, start + step, ...; each value plus step is within end + 1, and yielding fewer than size values means the next value fails that bound |
| RangeIterator.StepOneYieldsSize | src/iter/range_iter.go:41-76 | with step 1 a freshly built range yields exactly size values, start through end |
| RangeIterator.ErrorIteratorIsInert | src/iter/range_iter_test.go:22-42 | a rejected range has Size 0, no next value, Next 0 and Count 0 |
| RangeIterator.CountAfterNexts | src/iter/range_iter_test.go:44-58 | on a step-1 range Count reports the remaining size; afterwards Count, Size and HasNext report nothing left |
| RangeIterator.FilterLoop | src/iter/range_iter.go:117-124 | the filter loop keeps exactly the yielded values that match, in order, and drains the range |
| RangeIterator.Filter | src/iter/range_iter.go:115-127 | Filter returns a slice iterator of the matching yielded values and drains the range |
| RangeIterator.FoldLoop | src/iter/range_iter.go:137-141 | the folding loop is the left fold of the yielded values |
| RangeIterator.Reduce | src/iter/range_iter.go:136-143 | Reduce is the left fold of the yielded values from 0, and drains the range |
| RangeIterator.Fold | src/iter/range_iter.go:147-149 | Fold gives the same result as Reduce |
| RangeIterator.FoldLeft | src/iter/range_iter.go:153-159 | FoldLeft is the left fold of the yielded values from the seed, and drains the range |
| RangeIterator.Contains | src/iter/range_iter.go:234-242 | Contains is true iff the value would be yielded; the range is consumed up to and including the first match, or drained when there is none |
| RangeIterator.Clone | src/iter/range_iter.go:207-214 | the clone yields the same values and reports the same size |
| RangeIterator.Take | src/iter/range_iter.go:96-112 | Take keeps start and sets the new step; when start + n <= end it uses n as end with size n / step, otherwise end and size are kept |
| RangeIterator.TakeUsesNAsEnd | src/iter/range_iter.go:96-112 | Take(3) on 5..20 sets end to 3, below start, so nothing is yielded |
| RangeIterator.TakeYieldsAsWritten | src/iter/range_iter.go:96-112 | with a positive step, Take as written yields a prefix of the progression from start with the new step, each value plus step within the new end + 1 (`n` when start + n <= end) and at most the new size Quot(n, step) of them |
| RangeIterator.TakeScenarios | src/iter/range_iter_test.go:62-88 | after one Next on Range(0, 5, 1), Take(4, 1) has size 4 and first yields 1; after one Next on Range(0, 4, 1), Take(7, 1) keeps size 4 and four Next calls leave size 0 |
| RangeIterator.TakeSizedYield | src/iter/range_iter.go:96-112 | under the corrected bound, for every positive step: when start + n <= end, Take yields the progression from start of length n / step, or nothing for a negative n; otherwise it yields the whole remaining progression |
| RangeIterator.TakeAsEndYield | src/iter/range_iter.go:96-112 | the case n >= 0 with start + n <= end: n / step values of the progression |
| RangeIterator.TakeNegativeYield | src/iter/range_iter.go:96-112 | the case n < 0: the size is at most zero and nothing is yielded |
| RangeIterator.TakeFixed | src/iter/range_iter.go:93-112 | the corrected Take keeps start and the new step; when start + n <= end it has size n, otherwise end and size are kept |
| RangeIterator.TakeFixedYieldsFirstN | src/iter/range_iter.go:93-112 | the corrected Take yields exactly the first n values of the progression with the new step |
| RangeIterator.TakeFixedFromFive | src/iter/range_iter.go:93-112 | the corrected Take(3, 1) on 5..20 yields 5, 6, 7 |
| RangeIterator.CountMatchesFixedYield | src/iter/range_iter.go:79-87 | on a fresh range with a positive step, Count reports exactly as many values as the corrected iterator yields, which is its size |
| RangeIterator.Drop | src/iter/range_iter.go:217-231 | Drop consumes a prefix of values that are all at most n; a remaining value is above n and is returned with the receiver, otherwise a size-0 iterator comes back |
| RangeIterator.SliceLoop | src/iter/range_iter.go:180-201 | every collected value lies in [from, until], differs from end and is a value of the range |
| RangeIterator.Slice | src/iter/range_iter.go:169-204 | a negative bound gives an empty iterator and leaves the range alone; otherwise every value lies in [from, until], is not end and is yielded by the range |
| RangeIterator.SliceStepOne | src/iter/range_iter.go:169-204 | on a step-1 range the slice is the run from max(from, start) to min(until, end - 1), and empty when from lies beyond end |
| RangeIterator.SizeNextCountScenario | src/iter/range_iter_test.go:10-21 | Range(0, 10, 1) has size 11; after one Next returning 0, Count reports 10 |
| RangeIterator.OneToNine | src/iter/range_iter_test.go:210-214 | Range(1, 9, 1) yields 1 through 9 |
| RangeIterator.ToSliceContainsScenario | src/iter/range_iter_test.go:194-214 | over 1..9, ToSlice gives 1 through 9, Contains(5) holds and Contains(10) does not |
| RangeIterator.FilterScenario | src/iter/range_iter_test.go:90-97 | the even values of 1..9 are 2, 4, 6, 8 |
| RangeIterator.ReduceScenario | src/iter/range_iter_test.go:107-113 | summing 1..9 gives 45 |
| RangeIterator.SliceAndDropScenarios | src/iter/range_iter_test.go:144-192 | over 1..9, Slice(4, 7) has 4 values, Slice(4, 1) and Slice(15, 20) are empty, Drop(4) leaves 5 and Drop(10) leaves 0 |
| RangeIterator.HasNextStopsEarly | src/iter/range_iter.go:57-62 | Range(0, 4, 2) reports size 3 but yields only 0 and 2 |
| RangeIterator.NextFixed | src/iter/range_iter.go:67-76 | Next under the corrected bound returns start and advances while size is positive |
| RangeIterator.YieldFixedIsProgression | src/iter/range_iter.go:57-76 | under the corrected bound the iterator yields exactly size values of the progression |
| RangeIterator.QuotientBrackets | src/iter/range_iter.go:52 | the quotient of a non-negative span by a positive step brackets it: q * step <= span < (q + 1) * step |
| RangeIterator.RangeFixedYieldsWholeProgression | src/iter/range_iter.go:41-76 | with the corrected bound, every range with a positive step yields all size values, each within [start, end] |
| RangeIterator.HasNextFixedYieldsAll | src/iter/range_iter.go:57-62 | with the corrected bound, Range(0, 4, 2) yields 0, 2 and 4 |
| MapOpIterator.Next | src/iter/map_op_iter.go:32-39 | Next pulls exactly one source value and maps it; on an exhausted source it returns zero without touching it |
| MapOpIterator.Count | src/iter/map_op_iter.go:42-44 | Count is the source's Count and drains the source |
| MapOpIterator.Size | src/iter/map_op_iter.go:47-49 | Size is the source's Size |
| MapOpIterator.PullMapped | src/iter/map_op_iter.go:15-39 | pulling n values through the adapter succeeds whenever the source can deliver n, yields their images in order and leaves the adapter over the advanced source |
| MapOpIterator.ExhaustedSourceYieldsZero | src/iter/map_op_iter.go:32-39 | over an exhausted source every pull yields zero and the state never changes |
| EmptyIterator.PullYieldsZeros | src/iter/empty_iter.go:17-25 | any number of Next calls yield zeros, and not even one HasNext check succeeds |
| EmptyIterator.EmptyScenario | src/iter/empty_iter_test.go:8-15 | Count and Size are 0, HasNext is false and Next returns zero |
| MapEntryIterator.Entries | src/iter/map_iter.go:27-31 | the snapshot has one entry per key |
| MapEntryIterator.FromMap | src/iter/map_iter.go:25-34 | the snapshot holds each key exactly once with its value, Size is the number of keys, and the backing map is kept |
| MapEntryIterator.Next | src/iter/map_iter.go:42-45 | Next delegates to the snapshot iterator and never changes the backing map |
| MapEntryIterator.Count | src/iter/map_iter.go:48-50 | Count reports the remaining entries and exhausts the snapshot, leaving the backing map alone |
| MapEntryIterator.ToMapLoop | src/iter/map_iter.go:60-63 | the loop stores the remaining entries one after another |
| MapEntryIterator.ToMap | src/iter/map_iter.go:58-65 | ToMap stores the not-yet-yielded entries and exhausts the snapshot |
| MapEntryIterator.CollectedEntries | src/iter/map_iter.go:58-65 | storing entries with distinct keys gives a map with exactly those keys and values |
| MapEntryIterator.EntriesDetermineMap | src/iter/map_iter.go:25-34 | a map holding exactly the snapshot's keys and values is the original map |
| MapEntryIterator.ToMapRoundTrip | src/iter/map_iter.go:25-65 | ToMap of a fresh FromMap gives back the original map, for any iteration order |
| MapEntryIterator.CollectedTail | src/iter/map_iter.go:58-65 | dropping the first entry drops exactly its key from the collected map |
| MapEntryIterator.NextThenToMap | src/iter/map_iter_test.go:9-34 | after one Next the yielded key is absent from ToMap, every other binding is present, and Count is one less than the map size |
| PersistentList.ToSlice | src/list/list.go:38-46 | ToSlice has one value per node, a size-0 sentinel included |
| PersistentList.ValidSize | src/list/list.go:252-254 | on a valid list the size field is the number of values, and only nil looks empty |
| PersistentList.ValidUnique | src/list/list.go:23-29 | a valid list is determined by its values |
| PersistentList.Append | src/list/list.go:82-87 | Append's values are the old ones followed by v, its size is one more, and validity is kept |
| PersistentList.FromSlice | src/list/list.go:23-29 | FromSlice builds a valid list whose values are the input |
| PersistentList.FromSliceToSlice | src/list/list.go:23-46 | FromSlice of ToSlice rebuilds any valid list |
| PersistentList.Concat | src/list/list.go:63-71 | an empty side gives the other list back as is; otherwise the head's size is the sum of the two sizes |
| PersistentList.ConcatContents | src/list/list.go:63-71 | behind a valid non-empty list, Concat's values are the receiver's followed by the other's, or the receiver's alone when the other counts as empty |
| PersistentList.ConcatNonEmpty | src/list/list.go:63-71 | with both sides non-empty, Concat's values are the receiver's followed by the other's |
| PersistentList.ConcatValid | src/list/list_test.go:82-93 | Concat of two valid lists is valid and holds both lists' values in order |
| PersistentList.AppendHelperIsConcat | src/list/list.go:104-124 | AppendList's recursive helper builds the same list as Concat |
| PersistentList.AppendListIsConcat | src/list/list.go:104-124 | AppendList and Concat agree on all inputs |
| PersistentList.Prepend | src/list/list.go:131-133 | Prepend puts v in front of the original list, shared rather than copied, and the new head has size 0 |
| PersistentList.PrependLooksEmpty | src/list/list.go:131-133 | the size-0 head makes Concat discard a prepended list: [1] prepended to [2], then concatenated with [3], gives [3] |
| PersistentList.PrependFixed | src/list/list.go:131-133 | with the size set to one more than the tail's, Prepend keeps validity |
| PersistentList.PrependFixedThenConcat | src/list/list.go:131-133 | with the corrected size, Concat keeps every value of a prepended list |
| PersistentList.SplitHelper | src/list/list.go:178-190 | for an index inside the list the helper copies the first index + 1 values and returns the original suffix; otherwise it copies everything and ends in a sentinel |
| PersistentList.Split | src/list/list.go:172-194 | for 1 <= n <= size the left part holds the first n values and the right part is the original suffix node; otherwise the left part holds all values followed by a zero |
| PersistentList.SplitZeroAddsZero | src/list/list_test.go:25-45 | Split(0) on [1, 2] gives a left part of [1, 2, 0], not an empty one |
| PersistentList.SplitFixed | src/list/list.go:172-194 | the corrected Split gives the first clamp(n) values on the left and the rest on the right, with no zero node appended; both parts are always nodes, a part without values is `&List{}`, and a nil or size-0 receiver gives two size-0 parts |
| PersistentList.SplitFixedScenarios | src/list/list_test.go:25-45 | the corrected Split meets every Split test: sizes 3 and 3 headed 1 and 4, size 6 with an `&List{}` right part for n = 10, and left size 0 for the zero list and for nil; Split(0) leaves the whole list on the right |
| PersistentList.SplitFixedParts | src/list/list.go:172-194 | a part of the corrected Split counts as empty exactly when it is the `&List{}` node, and the values of the non-empty parts, one after the other, are the list's |
| PersistentList.SplitFixedConcat | src/list/list.go:172-194 | concatenating the two parts of the corrected Split gives back any non-nil valid list, and a part standing for no values for nil |
| PersistentList.PrependList | src/list/list.go:146-157 | an empty side gives the other list back; otherwise the other list's values, then the receiver's values, then the zero of Split(0)'s sentinel |
| PersistentList.PrependListAddsZero | src/list/list_test.go:95-106 | PrependList of [4, 5] onto [1, 2, 3] holds 4, 5, 1, 2, 3, 0 |
| PersistentList.PrependListFixed | src/list/list.go:146-157 | over the corrected Split, PrependList gives a valid list of the other list's values followed by the receiver's |
| PersistentList.ReverseOnto | src/list/list.go:209-214 | the reversing walk puts the list's values, reversed, in front of the accumulator |
| PersistentList.Reverse | src/list/list.go:204-207 | Reverse yields the values reversed followed by the zero of its sentinel seed, so the head is the original last value |
| PersistentList.ReverseAddsZero | src/list/list_test.go:47-51 | reversing [1, 2, 3] gives 3, 2, 1, 0 with head size 1, and reversing again gives 0, 1, 2, 3, 0 rather than the list |
| PersistentList.ReverseFixedOnto | src/list/list.go:209-214 | the corrected walk reverses the values and keeps validity |
| PersistentList.ReverseFixed | src/list/list.go:204-207 | the corrected Reverse gives a valid list of the reversed values |
| PersistentList.ReverseFixedInvolution | src/list/list.go:204-214 | the corrected Reverse applied twice gives back any valid list |
| PersistentList.AtHelper | src/list/list.go:231-238 | following i links reaches the i-th value |
| PersistentList.At | src/list/list.go:225-239 | At succeeds iff the list is non-nil and the index is in [0, size); it then returns that value, and otherwise zero |
| PersistentList.AtValid | src/list/list_test.go:53-67 | on a valid list At succeeds exactly for the indexes of ToSlice and returns the value there |
| PersistentList.Filter | src/list/list.go:287-300 | Filter builds a valid list of the values that pass, in order |
| PersistentList.Map | src/list/list.go:318-326 | Map builds a valid list of the images, in order |
| PersistentList.ListScenarios | src/list/list_test.go:9-45 | FromSlice(1..6) has size 6 and 7 after Append; Prepend(0) puts 0 before 1; Split(3) gives parts of size 3 headed 1 and 4; Split(10) gives size 6 and a sentinel; splitting nil or a sentinel gives a left size of 0 |
| LinkedList.Append | src/list/linked_list.go:30-43 | Append links the element after the tail: on an empty list it becomes head and tail, on a sound list it is added at the end, and the size grows by one |
| LinkedList.Prepend | src/list/linked_list.go:46-58 | Prepend puts the element in front and grows the size by one; on an empty list the element is head and tail |
| LinkedList.FromListLoop | src/list/linked_list.go:20-25 | appending the remaining values keeps the list sound and ends with the whole input |
| LinkedList.FromList | src/list/linked_list.go:18-27 | FromList holds the input in order, with a sound tail and size |
| LinkedList.DeleteAfter | src/list/linked_list.go:68-80 | the loop unlinks the first later node holding the value, or changes nothing |
| LinkedList.Delete | src/list/linked_list.go:61-81 | Delete unlinks the first node holding the value, if any, and otherwise changes nothing |
| LinkedList.DeleteEffect | src/list/linked_list.go:61-81 | Delete of a present value removes one occurrence of it and shrinks chain and size by one; the state stays well formed, and a sound list stays sound unless its last node was removed |
| LinkedList.Find | src/list/linked_list.go:84-93 | Find copies out the first node holding the value with the values after it, or a zero node, and leaves the list as it was |
| LinkedList.FindFrom | src/list/linked_list.go:86-92 | the search from position k finds the first occurrence |
| LinkedList.Head | src/list/linked_list.go:101-103 | Head is nil iff the list is empty, and otherwise the first value |
| LinkedList.Tail | src/list/linked_list.go:106-108 | on a sound list Tail is nil iff the list is empty, and otherwise the last value |
| LinkedList.AppendPrependSound | src/list/linked_list.go:30-58 | on a sound list Append and Prepend keep it sound and add the value at the matching end |
| LinkedList.DeleteLastLosesAppend | src/list/linked_list.go:61-81 | deleting the last of [1, 2] leaves the tail on the unlinked node, so after Append(3) the chain is [1], Find(3) fails, yet Size is 2 and Tail is 3 |
| LinkedList.DeleteFixed | src/list/linked_list.go:61-81 | the corrected Delete removes the first occurrence and keeps the list sound |
| LinkedList.DeleteFixedThenAppend | src/list/linked_list.go:61-81 | after the corrected Delete the list stays sound, an appended value is the last of the chain, and Find finds it |
| LinkedList.OneToSix | src/list/linked_list_test.go:9-14 | FromList of 1..6 holds 1..6 with size 6 |
| LinkedList.BuildScenarios | src/list/linked_list_test.go:16-35 | on 1..6 Head is 1; after Append(7) Head is 1, Tail is 7 and Size is 7; after Prepend(7) Size is 7 and Tail is 6; Prepend on an empty list gives Head 10 |
| LinkedList.FindScenarios | src/list/linked_list_test.go:52-64 | Find on 1..6 returns the nodes holding 3 and 1, and a zero node for 10 |
| LinkedList.DeleteScenarios | src/list/linked_list_test.go:37-50 | deleting 1 from 1..6 leaves head 2 and size 5, deleting 6 next leaves size 4, and deleting from an empty list keeps size 0 |
| Optional.None | src/optional.go:50-52 | None is None, not Some, and holds the zero value |
| Optional.NewOptional | src/optional.go:33-38 | the result is Some holding the value iff the nil/pointer guard accepts the value, and None iff the guard rejects it; either way it is canonical |
| Optional.Some | src/optional.go:42-47 | Some returns NewOptional's option, with no error iff that option is Some and the none-value error otherwise |
| Optional.SomeXorNone | src/optional.go:60-67 | a tagged option is exactly one of Some and None; the zero option is neither |
| Optional.Apply | src/optional.go:75-86 | Apply maps the value of a Some and leaves anything else, including its tag, untouched |
| Optional.Take | src/optional.go:89-96 | Take returns the stored value, with the none-value error iff the option is None |
| Optional.TakeAgreesWithTakeOr | src/optional.go:89-104 | TakeOr returns the value Take would return when Take succeeds, and the fallback when it fails |
| Optional.TakeOrElse | src/optional.go:107-112 | TakeOrElse is TakeOr of the callback's value |
| Optional.Or | src/optional.go:115-120 | Or returns the alternative for None and the receiver otherwise |
| Optional.OrElse | src/optional.go:123-128 | OrElse is Or of the callback's option |
| Optional.IfSome | src/optional.go:131-139 | IfSome applies f to the value of a Some; otherwise it returns the stored value with the none-value error |
| Optional.IfNone | src/optional.go:142-147 | IfNone calls fn for a None; otherwise it returns the stored value with the some-value error |
| Optional.IfSomeIfNoneExclusive | src/optional.go:131-147 | on a tagged option exactly one of IfSome and IfNone succeeds; on the zero option neither does |
| Optional.Map | src/optional.go:180-188 | Map sends None to None and a Some to NewOptional of the mapped value; the result is always canonical |
| Optional.MapIdentity | src/optional.go:180-188 | mapping the identity over a canonical option gives it back |
| Optional.MapCompose | src/optional.go:180-188 | mapping f then g equals mapping their composition when f's results pass the guard |
| Optional.ApplyIsMap | src/optional.go:75-86 | on a Some whose image passes the guard, Apply agrees with Map |
| Optional.ZeroOptionMapsItsValue | src/optional.go:180-188 | the untagged zero option is not None, so Map applies the mapper to its zero value |
| Eithers.Left | src/either.go:35-40 | Left is a Left holding the value and the right zero |
| Eithers.Right | src/either.go:43-55 | Right is a Right holding the value iff the guard does not reject it; otherwise it is the Left of the left-value error |
| Eithers.Swap | src/either.go:81-92 | Swap exchanges the payloads and is Left iff the input was Right |
| Eithers.SwapInvolution | src/either.go:81-92 | swapping twice restores a sided value; the zero value comes back as a Left |
| Eithers.TakeLeftIsTakeRightOfSwap | src/either.go:95-111 | TakeLeft of a value agrees with TakeRight of its swap, on the payload and on success |
| Eithers.Take | src/either.go:114-116 | Take is TakeRight |
| Eithers.TakeOrElse | src/either.go:127-132 | TakeOrElse is TakeOr of the callback's value |
| Eithers.OrElse | src/either.go:143-148 | OrElse is Or of the callback's value |
| Eithers.Map | src/either.go:153-161 | Map passes a Left through and rebuilds a Right from the mapped value through Right's guard; the result is canonical |
| Eithers.MapIdentity | src/either.go:153-161 | mapping the identity over a canonical value gives it back |
| Eithers.FoldSwap | src/either.go:165-178 | folding the swap with the functions exchanged gives the same result |
| Eithers.ExistsIsFold | src/either.go:181-186 | Exists is the fold answering false for a Left and the predicate for a Right |
| Eithers.FlatMapRightUnit | src/either.go:224-230 | FlatMap over a Right that passes the guard is fn of its value; a rejected one stays the Left of the error |
| Eithers.FlatMapWithRight | src/either.go:224-230 | FlatMap with Right as the function gives back any canonical value |
| Eithers.ToOption | src/either.go:233-243 | a Right becomes NewOptional of its value and anything else None; the result is canonical |
| Eithers.ToEither | src/optional.go:223-228 | None becomes the Left of the left-value error; a Some becomes Right through Right's guard |
| Eithers.OptionEitherRoundTrip | src/optional.go:223-228 | ToOption of ToEither gives back any canonical option |
| Eithers.EitherOptionRoundTrip | src/either.go:233-243 | ToEither of ToOption keeps the right payload of a Right that passes the guard and turns everything else into the error Left |

Members without a row of their own are stated through the rows above:

- The `HasNext` predicates of every iterator, and EmptyIterator's `Empty`, `HasNext`, `Next`, `Count` and `Size`: these appear in the contracts of Next, Count, Drained and EmptyIterator.PullYieldsZeros / EmptyScenario.
- `Size` of SliceIterator, RangeIterator and MapEntryIterator: these read the size field; FromMap, Range, Count and the test scenarios state their values.
- SliceIterator.ToSlice: the remaining slice, stated on a fresh iterator by FromSliceRoundTrip.
- The `Map` adapters of SliceIterator, RangeIterator and MapOpIterator: these only build the adapter; MapOpIterator.Next and PullMapped state what it yields.
- DictOps.Size and Contains, and SliceOps.Size: the map's key count, key membership and the slice length.
- LinkedList.New and Size: the empty list and its size field; FromList and BuildScenarios start from New and state Size.
- PersistentList.AppendList: stated by AppendListIsConcat. PersistentList.Head, Tail and Size read a node's fields, under the requirements listed under Left out.

`ListOps` also stands for the seven functions that src/collections/list/slice_ops.go shares with src/collections/slice_ops.go: Size 26-28, Append 38-43, Prepend 46-51, Take 54-63, Map 78-84, Reduce 100-103 and FoldLeft 121-126. Their bodies are identical, so `SliceOps` models them once.

## Left out

- Foreach of every collection and iterator: these exist only to run a side-effecting callback, and nothing is returned.
- String of List and Option: `fmt` formatting only.
- ToIter of the slice and range iterators: these are interface conversions with no behaviour.
- src/iter/flatten_op_iter.go: HasNext calls itself while `head != nil` and Count calls itself while `head == nil`. This is unconditional self-recursion with no terminating behaviour to state.
- src/either/either.go: an older duplicate of src/either.go that returns an untyped `any(nil)` as a generic value; src/either.go is modelled instead.
- Option.Flatten, Option.FlatMap and OptionFlatMap: they rely on runtime type assertions on generic values.
- The nil/zero/pointer guard of src/utils/validation.go uses reflection. It is a parameter `isNilOrPtr` of `GoType`, so every Option and Either property holds for any guard. src/utils/validation.go is not part of this model.
- Go's `any`: the left type of `Option.ToEither` is the error sum `MaybeError`. The `any(ErrorLeftValue).(A)` conversion in Right, which panics unless A is an interface type the error value satisfies (such as `any` or `error`), becomes the parameter `errAsA`.
- Floating-point instantiations of `Number`: the range iterator is modelled over `int` only.
- Integers are unbounded: 64-bit overflow of `int`, in range sizes and in `start + step`, is not modelled.
- Go's randomized map iteration order is the parameter `order`; the model does not say which order is used.
- Pointer aliasing: mutation seen through a shared reference is not modelled. Lists, maps and iterators are values, and a mutating method returns the new value. In the source, by contrast, iterators alias: SliceIterator.FromSlice keeps the caller's slice (src/iter/slice_iter.go:34-36), a MapOpIterator holds its source iterator, and RangeIterator.Drop hands back the receiver itself (src/iter/range_iter.go:221).
- The map-iterator methods that src/iter/map_iter_test.go exercises but src/iter/map_iter.go does not define (Clone, Contains, Filter, Reduce, Fold, FoldLeft, Foreach, Map, ToSlice) are not modelled.
- Panics: most become preconditions, listed below. The two that are not modelled at all are listed first.
- Eithers.FlatMap: the `any(e.right).(B)` assertion of src/either.go:229 panics when B is an interface type and a non-Left value carries a nil right payload. Examples are the swap of `Left[error, int](nil)` and the zero `Either[int, error]{}`. The model returns `fn(e.right)` there. The `isNilOrPtr` guard cannot tell a nil interface from a nil slice, whose assertion succeeds, so that panic is not modelled.
- SliceIterator.Contains and SliceIterator.ContainsLoop: `A(==)` stands for element types whose dynamic values Go can compare. The `any(value) == any(elm)` comparison of src/iter/slice_iter.go:235 panics at run time on a non-comparable dynamic type, for example `FromSlice([][]int{{1}}).Contains([]int{1})`. That panic is not modelled; the model compares the sequences and answers true.
- PersistentList.Head, Tail, Size, Filter and Map: these require a non-nil list, because the source dereferences the receiver.
- PersistentList.At requires the size field not to exceed the node count. On a list whose sizes lie, the source would dereference nil.
- SliceIterator.Slice requires `SliceInBounds`, because the source indexes `originalSlice[until]` even when `until == size`.
- RangeIterator.Range excludes `step == 0` with `start <= end`, because the source divides by the step.
- RangeIterator.Count excludes a zero step when a value remains; RangeIterator.Take excludes a zero step when it would divide.
- PersistentList.SplitFixedConcat: for a nil list both corrected parts are `&List{}`, so their Concat is `&List{}` rather than nil; it holds no values, but it is a node.
- RangeIterator.ToSlice requires a non-negative size, because the source allocates a slice of capacity `size` (src/iter/range_iter.go:250-251), which panics for a negative size.
- Nil Go maps: a `Dict` is always a map value. The source's Add panics when its receiver is a nil map, and Concat can hand back a nil receiver; neither is modelled.
- RangeIterator.Slice: the contract states that the result contains only values that qualify, not that every qualifying value is collected. The full run is proved for step 1 in SliceStepOne.
- `Either.Unwrap`, `TakeLeft`, `TakeRight`, `TakeOr`, `Or`, `Fold`, `Exists`, `FlatMap`, `IsLeft` and `IsRight`, and Option's `GetType`, `IsNone`, `IsSome`, `Get` and `Unwrap`, are modelled. Their rows are the lemmas that relate them: SwapInvolution, TakeLeftIsTakeRightOfSwap, FoldSwap, ExistsIsFold, SomeXorNone and TakeAgreesWithTakeOr.

## Findings

| source | as written | input that shows it | evidently intended | confidence | as-written member | corrected member |
|---|---|---|---|---|---|---|
| src/iter/range_iter.go:61 | HasNext holds only while `start + step <= end + 1` | Range(0, 4, 2) has size 3 but yields only 0 and 2 | a value remains while `size > 0`, so 0, 2 and 4 are yielded | not executed | RangeIterator.HasNextStopsEarly | RangeIterator.RangeFixedYieldsWholeProgression |
| src/iter/slice_iter.go:84 | Take(n) keeps pulling while `current - 1 <= n`, so the bound counts the iterator's position, not the elements taken | Take(3) on a fresh iterator over 1..9 takes 1, 2, 3, 4, 5 | take the first n elements, or up to the end when fewer remain | not executed | SliceIterator.TakeFromFreshMovesTwoMore | SliceIterator.TakeFixed |
| src/iter/range_iter.go:97-103 | when start + n <= end, Take(n, step) sets the new end to n itself rather than start + (n - 1) * step | Take(3, 1) on Range(5, 20, 1) reports size 3 but its end is 3, below start, so nothing is yielded | the first n values 5, 6, 7 | not executed | RangeIterator.TakeUsesNAsEnd | RangeIterator.TakeFixedYieldsFirstN |
| src/list/list.go:132 | Prepend builds the new head with size 0 | Concat(Prepend([2], 1), [3]) gives [3]: the prepended list is treated as empty | size is one more than the tail's size | not executed | PersistentList.PrependLooksEmpty | PersistentList.PrependFixedThenConcat |
| src/list/list.go:180-192 | Split with n <= 0 or n > size copies the whole list and ends it in a `&List{}` sentinel | Split([1, 2], 0) gives a left part holding 1, 2, 0 | the left part holds exactly the first clamp(n) values and the right part the rest, with no zero appended; a part without values is `&List{}`, as the tests expect | not executed | PersistentList.SplitZeroAddsZero | PersistentList.SplitFixed |
| src/list/list.go:146-157 | PrependList goes through Split(0), so the sentinel's zero ends up at the end of the result | PrependList([1, 2, 3], [4, 5]) holds 4, 5, 1, 2, 3, 0 | the values 4, 5, 1, 2, 3 | not executed | PersistentList.PrependListAddsZero | PersistentList.PrependListFixed |
| src/list/list.go:205 | Reverse seeds its walk with `&List{}` | Reverse([1, 2, 3]) holds 3, 2, 1, 0 | the values 3, 2, 1, and reversing twice gives back the list | not executed | PersistentList.ReverseAddsZero | PersistentList.ReverseFixedInvolution |
| src/list/linked_list.go:73-76 | Delete of the last node does not move `tail` | Delete(FromList([1, 2]), 2) followed by Append(3) leaves 3 unreachable from head | tail moves to the new last node, so the appended value is in the list | not executed | LinkedList.DeleteLastLosesAppend | LinkedList.DeleteFixedThenAppend |
