# IslandOfMisfitTypes core, modelled in Dafny

This project models three small pieces of the IslandOfMisfitTypes C# library
and proves what their documentation and tests promise about them.

- `Series<T>` (module `Collections`, `collections.dfy`): a stateful generator.
  The first calls to `Next` return the initial values (the seed) in order.
  Every later call returns a caller-supplied function of the last `|seed|`
  terms, oldest first. The object keeps those terms in a queue
  (`pending`), which `Next` and `Reset` change in place. The model is a class
  with that queue as a field. `Next` and `Reset` state the new queue
  directly. A caller's loop of `Next` calls (`Take`) is proved against the
  pure functions `Terms` and `After`, and the documented recurrence is then
  proved about `Terms`.
- `Batch` (module `Linq`, `linq.dfy`): splits a sequence into consecutive
  batches whose lengths come from a sequence of sizes. The enumerator
  protocol the C# code relies on (`MoveNext`, `Current`) is a small class.
  `GetBatch` and `BatchImpl` keep the source's loops. `GetBatch` states its
  batch as a slice of the source, and `BatchImpl` is proved to return
  exactly what the pure function `BatchSpec` gives.
- `RegistryGuidConverter.Convert` (module `Windows`, `windows.dfy`): the MSI
  registry form of a GUID. The 32 hex digits are batched by
  8, 4, 4, 2, 2, 2, 2, 2, 2, 2, 2 with the same `Batch` model. Each group is
  reversed and the groups are joined. The conversion is its own inverse.

`Wrappers` (`wrappers.dfy`) holds `Option` for a reference that may be null,
and `Result` for an operation that may throw `ArgumentNullException`.

Where the remarks on `Batch` and its code differ, the model follows the code.
The remarks (IslandOfMisfitTypes/Linq/BatchExtension.cs:21-25) say that once a batch has taken
the rest of the source, the remaining sizes are ignored. The code still
yields an empty batch for every later size of zero or less
(IslandOfMisfitTypes/Linq/BatchExtension.cs:44). Only later positive sizes are dropped
(IslandOfMisfitTypes/Linq/BatchExtension.cs:45). `Linq.BatchExampleAfterExhaustion` shows this.

## Model

| member | source | states |
|---|---|---|
| Collections.Series.constructor | IslandOfMisfitTypes/Collections/Series.cs:37-43 | a new series keeps the given seed and function and starts with an empty queue |
| Collections.Series.New | IslandOfMisfitTypes/Collections/Series.cs:37-43 | a null seed fails with ArgumentNull("initialValues"), checked first; then a null function fails with ArgumentNull("func"); otherwise a fresh series with that seed, that function and an empty queue |
| Collections.Series.Copy | IslandOfMisfitTypes/Collections/Series.cs:62-72 | the copy has the source's seed and function; its queue is the source's when preservePosition holds and empty otherwise |
| Collections.Series.CopyOf | IslandOfMisfitTypes/Collections/Series.cs:62-72 | a null source fails with ArgumentNull("source"); otherwise a fresh copy as above |
| Collections.Series.Of1 | IslandOfMisfitTypes/Collections/Series.cs:81-84 | a null function fails with ArgumentNull("func"); otherwise seed [a] and f(w) == func(w[0]) on every one-term window |
| Collections.Series.Of2 | IslandOfMisfitTypes/Collections/Series.cs:94-97 | a null function fails with ArgumentNull("func"); otherwise seed [a, b] and f(w) == func(w[0], w[1]) on every two-term window |
| Collections.Series.Of3 | IslandOfMisfitTypes/Collections/Series.cs:108-112 | a null function fails with ArgumentNull("func"); otherwise seed [a, b, c] and f applies func to the three terms in order |
| Collections.Series.Of4 | IslandOfMisfitTypes/Collections/Series.cs:124-128 | a null function fails with ArgumentNull("func"); otherwise seed [a, b, c, d] and f applies func to the four terms in order |
| Collections.Series.Of5 | IslandOfMisfitTypes/Collections/Series.cs:141-145 | a null function fails with ArgumentNull("func"); otherwise seed [a, b, c, d, e] and f applies func to the five terms in order |
| Collections.Series.Next | IslandOfMisfitTypes/Collections/Series.cs:151-163 | while the queue is shorter than the seed, returns the seed term at the queue's length and appends it; once full, returns f(queue), appends it and drops the oldest term (for an empty seed the queue stays empty); the queue stays a reachable one: never longer than the seed and, while not full, the seed's first terms |
| Collections.Series.Reset | IslandOfMisfitTypes/Collections/Series.cs:168-174 | the queue is drained to empty and the series stays valid; seed and function are constants and cannot change |
| Collections.Series.Take | IslandOfMisfitTypes.UnitTests/Collections/SeriesTests.cs:14 | k calls of Next return Terms(seed, f, old queue, k) and leave the queue at After(seed, f, old queue, k) |
| Collections.After | IslandOfMisfitTypes/Collections/Series.cs:153-161 | after k calls the queue has min(queue length + k, seed length) terms: it grows to the seed's length and keeps it |
| Collections.TermsPrefix | IslandOfMisfitTypes/Collections/Series.cs:151-163 | the first m terms of k >= m calls are the terms of m calls: later calls never change earlier terms |
| Collections.WindowIsRecent | IslandOfMisfitTypes/Collections/Series.cs:9-12 | the queue always holds the most recent terms: the tail of the starting queue followed by the terms returned since |
| Collections.AfterReachable | IslandOfMisfitTypes/Collections/Series.cs:153-161 | any number of calls from a reachable queue leads to a reachable queue |
| Collections.Recurrence | IslandOfMisfitTypes/Collections/Series.cs:8-12 | term i of a fresh series is seed[i] while i is below the seed length, and otherwise f of the previous seed-length terms, oldest first |
| Collections.CountingUp | IslandOfMisfitTypes.UnitTests/Collections/SeriesTests.cs:10-16 | the series seeded with a that adds one has term i == a + i |
| Collections.Triangle | IslandOfMisfitTypes.UnitTests/Collections/SeriesTests.cs:10-16 | seed 1 with a => a + 1 gives 1, 2, ..., 9 |
| Collections.FibonacciTerms | IslandOfMisfitTypes.UnitTests/Collections/SeriesTests.cs:19-25 | seeds 0, 1 with (a, b) => a + b give term i == Fib(i) |
| Collections.Fibonacci | IslandOfMisfitTypes.UnitTests/Collections/SeriesTests.cs:19-25 | seeds 0, 1 with (a, b) => a + b give 0, 1, 1, 2, 3, 5, 8, 13, 21 |
| Collections.ResetRestarts | IslandOfMisfitTypes/Collections/Series.cs:165-174 | after Reset a series returns the same k terms as a new series with the same seed and function |
| Collections.CopyContinues | IslandOfMisfitTypes/Collections/Series.cs:49-53 | a copy that keeps the position returns the same k terms as its source; advancing the copy leaves the source's queue as it was, and advancing the source afterwards leaves the copy's queue where the copy's own calls put it |
| Linq.BatchSpec | IslandOfMisfitTypes/Linq/BatchExtension.cs:38-47 | at most one batch per size; no sizes give no batches |
| Linq.BatchFlattensToPrefix | IslandOfMisfitTypes/Linq/BatchExtension.cs:6-8 | the batches joined are the source's first min(source length, sum of positive sizes) elements: consecutive, in order, nothing skipped or repeated |
| Linq.BatchExactSizes | IslandOfMisfitTypes.UnitTests/Linq/BatchExtensionTests.cs:40-63 | when the positive sizes sum to at most the source length, there is one batch per size and batch i has length max(sizes[i], 0) |
| Linq.BatchEmptySource | IslandOfMisfitTypes/Linq/BatchExtension.cs:44-45 | an empty source gives one empty batch per non-positive size and none for positive sizes |
| Linq.BatchExamplesEmpty | IslandOfMisfitTypes.UnitTests/Linq/BatchExtensionTests.cs:26-38 | "" with 1, 2, 3 gives no batches; "abcdefg" with no sizes gives no batches |
| Linq.BatchExampleShort | IslandOfMisfitTypes.UnitTests/Linq/BatchExtensionTests.cs:65-72 | "abcdefg" with 1, -1, 2, -2, 3 gives "a", "", "bc", "", "def" |
| Linq.BatchExampleLong | IslandOfMisfitTypes.UnitTests/Linq/BatchExtensionTests.cs:74-90 | "abcdefg" with 1, -1, 2, -2, 3, 7, 3 gives "a", "", "bc", "", "def", "g" |
| Linq.BatchExampleAfterExhaustion | IslandOfMisfitTypes/Linq/BatchExtension.cs:42-45 | "abc" with 5, 0 gives "abc", "": a non-positive size after exhaustion still yields an empty batch |
| Linq.Enumerator.constructor | IslandOfMisfitTypes/Linq/BatchExtension.cs:41 | a new enumerator is positioned before the first element |
| Linq.Enumerator.MoveNext | IslandOfMisfitTypes/Linq/BatchExtension.cs:45 | true exactly when an element remains, and then it becomes the current one; false leaves the enumerator exhausted |
| Linq.GetBatch | IslandOfMisfitTypes/Linq/BatchExtension.cs:49-55 | a count of zero or less gives an empty batch and does not move the enumerator; otherwise the batch is the next min(count, remaining) elements from the current one, and the enumerator has then reached exactly the elements taken so far (on the last one taken, or past the end when the source ran out) |
| Linq.BatchImpl | IslandOfMisfitTypes/Linq/BatchExtension.cs:38-47 | the loop over the sizes with one shared enumerator yields exactly BatchSpec(target, batchSizes) |
| Linq.Batch | IslandOfMisfitTypes/Linq/BatchExtension.cs:27-36 | a null target fails with ArgumentNull("target"), checked first; a null batchSizes fails with ArgumentNull("batchSizes"); otherwise the batches of BatchSpec |
| Windows.Convert | IslandOfMisfitTypes/Windows/RegistryGuidConverter.cs:57-65 | batches the 32 digits by the group sizes, reverses each group and joins them; the result has 32 digits |
| Windows.GroupSizesPartition32 | IslandOfMisfitTypes/Windows/RegistryGuidConverter.cs:63 | the group sizes are positive and add up to exactly 32, so the batches cover the whole input |
| Windows.ReverseGroupsPermutes | IslandOfMisfitTypes/Windows/RegistryGuidConverter.cs:63-64 | for any sizes that partition the input, reversing each batch keeps the length and the multiset of elements |
| Windows.ConvertPermutes | IslandOfMisfitTypes/Windows/RegistryGuidConverter.cs:63-64 | the result has 32 digits and the same multiset of digits as the input |
| Windows.ConvertKeepsHexDigits | IslandOfMisfitTypes/Windows/RegistryGuidConverter.cs:63-64 | hex digits convert to hex digits |
| Windows.ReverseGroupsAt | IslandOfMisfitTypes/Windows/RegistryGuidConverter.cs:19-25 | for any sizes that partition the input, group j of the result is group j of the input reversed, in place |
| Windows.ConvertReversesGroup | IslandOfMisfitTypes/Windows/RegistryGuidConverter.cs:22-24 | each of the 11 groups, at offsets 0, 8, 12, 16, 18, ..., 30, is the same group of the input reversed |
| Windows.ReverseGroupsInvolutive | IslandOfMisfitTypes/Windows/RegistryGuidConverter.cs:27-31 | for any sizes that partition the input, reversing the groups twice gives back the input |
| Windows.ConvertInvolutive | IslandOfMisfitTypes/Windows/RegistryGuidConverter.cs:27-31 | Convert(Convert(d)) == d for every 32-digit d |
| Windows.ConvertExample | IslandOfMisfitTypes/Windows/RegistryGuidConverter.cs:40-42 | 5C6F5296AC5D40FDAE203C5E2E704077 converts to 6925F6C5D5CADF04EA02C3E5E2070477 |

## Left out

- Collections.Series.constructor: requires the function to accept every window of the seed's length. The C# code accepts any function and throws only when it indexes out of range during enumeration. Here that caller defect cannot be expressed.
- Collections.Series.New: carries the same requirement on the function as the constructor.
- Functions with side effects or shared state are not modelled. The function is a pure Dafny value, so the aliasing between a copy and its source through a shared impure function (IslandOfMisfitTypes/Collections/Series.cs:57-61, 66) does not arise.
- Exceptions thrown by the caller's function, and integer overflow inside it, are not modelled. The Triangle and Fibonacci examples use unbounded `int`; their nine terms are far from the 32-bit limit.
- The queue's initial capacity in the constructors has no observable effect and is not modelled.
- Collections.Series.constructor: the C# series keeps a reference to the caller's seed array (IslandOfMisfitTypes/Collections/Series.cs:39-40) and reads it on every call of `Next` (IslandOfMisfitTypes/Collections/Series.cs:156), so later writes to that array change the terms; the copy constructor snapshots the array (IslandOfMisfitTypes/Collections/Series.cs:65). The model's seed is an immutable sequence, so neither effect is captured.
- Thread safety (IslandOfMisfitTypes/Collections/Series.cs:15): the type is documented as not thread-safe, and the model is sequential.
- Lazy, deferred evaluation of `BatchImpl` (the `yield return` iterator) is not modelled. The model builds every batch at once as a `seq<seq<T>>`, so a consumer that stops early or enumerates twice is not captured. The null checks in `Batch` still happen before anything is enumerated.
- The source of `Batch` is any `IEnumerable<T>`, possibly infinite or changing. The model takes a finite sequence, and the enumerator is not disposed.
- `Guid.Parse` and `Guid.ToString("N")` (IslandOfMisfitTypes/Windows/RegistryGuidConverter.cs:60-62) are .NET formatting and parsing and are not modelled. `Windows.Convert` works on the 32 hex digits of the "N" format.
- `Collections.Series` takes only element types that contain no references (the `!new` bound), because its validity quantifies over every window of terms. The C# `Series<T>` accepts any `T`.
