# TorchRec jagged tensors and TW-RW sharding index arithmetic, in Dafny

This project models two parts of TorchRec, the PyTorch library for
recommendation models.

The first part is the family of sparse feature containers in
`torchrec/sparse/jagged_tensor.py`:

- `JaggedTensor`: one flat `values` buffer (with optional `weights`) cut into
  rows by `lengths` or `offsets`; the missing one of the two is derived on
  first access and stored back.
- `KeyedJaggedTensor` (KJT): one jagged tensor per key, laid out key-major,
  with a uniform `stride` or per-key-per-rank strides, and the lazily filled
  caches `length_per_key`, `offset_per_key`, `index_per_key`,
  `lengths_offset_per_key` and `jt_dict`. Its structural operations
  (`split`, `permute`, `concat`, `__getitem__`, `to_dict`, `flatten_lengths`,
  `from_jt_dict`, `empty`, `empty_like`, equality) and the all-to-all
  contract (`dist_labels`, `dist_splits`, `dist_tensors`, `dist_init`).
- `KeyedTensor`: dense per-key column blocks along the keyed axis, its lazy
  `offset_per_key`, `__getitem__`, `to_dict`, and `regroup` /
  `regroup_as_dict` through `_regroup_keyed_tensors`.

The second part is the index arithmetic of table-wise/row-wise sharding in
`torchrec/distributed/sharding/twrw_sharding.py`: the staggered feature
shuffle, the per-feature block sizes, the node-granularity check, the
per-cross-group batch-size transpose, and the rank placement of tables.

Tensors are `seq<int>`, optional tensors `Option<seq<int>>`, and every Python
exception the code raises is a `Failure` of a `Result` naming the exception
class (and its message where the source gives one). Objects whose fields the
source fills in place (`JaggedTensor`, `KeyedJaggedTensor`, `KeyedTensor`)
are classes whose caches are mutable fields; their methods say exactly which
caches they fill. The fbgemm kernels are given their documented meaning as
spec functions: `asynchronous_complete_cumsum` is `CompleteCumsum`, the
`permute_*_sparse_data` kernels are `Gather` (whole blocks picked in index
order), and `segment_sum_csr` is `BlockSums`.

Modules, one per file:

| module | file | contents |
|---|---|---|
| `Wrappers` | wrappers.dfy | `Option`, `Result`, `Error` |
| `Prefix` | prefix.dfy | `Sum`, `CompleteCumsum`, `ToLengths`, the `_cumsum` loop |
| `Segments` | segments.dfy | `Flatten`, `Blocks`, `BlockSums`, `Pick`, `Gather` and their algebra |
| `Jagged` | jagged.dfy | `JaggedTensor` and the lazy lengths/offsets helpers |
| `KjtSpec` | kjt_spec.dfy | stride inference, `index_per_key`, `length_per_key`, `_sum_by_splits` |
| `KjtOps` | kjt_ops.dfy | KJT contents as a value, and split/concat/permute/to_dict/from_jt_dict on it |
| `Dist` | dist.dfy | `dist_labels`/`dist_splits`/`dist_tensors` and the `dist_init` rebuild |
| `KeyedJagged` | keyed_jagged.dfy | the `KeyedJaggedTensor` class and its module-level constructors |
| `KeyedTensors` | keyed_tensor.dfy | the `KeyedTensor` class and `_regroup_keyed_tensors` |
| `Twrw` | twrw.dfy | TW-RW sharding: shuffle, block sizes, batch-size transpose, placement |

## Model

| member | source | states |
|---|---|---|
| Prefix.Cumsum | torchrec/sparse/jagged_tensor.py:47-51 | the accumulating loop returns exactly the complete prefix sums of its input |
| Prefix.CumsumShape | torchrec/sparse/jagged_tensor.py:47-51 | the complete cumsum has one more entry than its input, starts at 0, ends at the total, and its adjacent differences are the input |
| Prefix.LengthsOfCumsum | torchrec/sparse/jagged_tensor.py:54-59 | differencing the complete cumsum of lengths gives the lengths back |
| Prefix.CumsumOfLengths | torchrec/sparse/jagged_tensor.py:54-59 | any offsets list starting at 0 is the complete cumsum of its own differences |
| Prefix.SumRepeat | torchrec/sparse/jagged_tensor.py:1234-1235 | `n` copies of a stride add up to `n` times the stride |
| Segments.BlocksOfFlatten | torchrec/sparse/jagged_tensor.py:1439-1447 | concatenating pieces and cutting the result by the pieces' sizes gives the pieces back |
| Segments.FlattenOfBlocks | torchrec/sparse/jagged_tensor.py:914 | cutting a buffer into blocks and concatenating the blocks gives the buffer back |
| Segments.BlockSumsTotal | torchrec/sparse/jagged_tensor.py:970-975 | per-block sums add up to the sum of the whole buffer |
| Segments.GatherBlocks | torchrec/sparse/jagged_tensor.py:1720-1730 | the blocks of a gathered buffer are the source blocks picked in index order |
| Segments.GatherBlockSums | torchrec/sparse/jagged_tensor.py:1720-1730 | the block sums of a gathered buffer are the source block sums picked in index order |
| Segments.GatherIdentity | torchrec/sparse/jagged_tensor.py:1720-1730 | gathering with `0..n-1` leaves the buffer unchanged |
| Segments.GatherCompose | torchrec/sparse/jagged_tensor.py:1720-1730 | gathering by `p` then by `q` is gathering by `p` picked at `q` |
| Segments.GatherInverse | torchrec/sparse/jagged_tensor.py:1720-1730 | gathering by a permutation and then by its inverse gives the buffer back |
| Jagged.MaybeComputeLengths | torchrec/sparse/jagged_tensor.py:71-77 | fails exactly when neither lengths nor offsets is present; present lengths are returned unchanged |
| Jagged.MaybeComputeOffsets | torchrec/sparse/jagged_tensor.py:80-86 | fails exactly when neither is present; present offsets are returned unchanged |
| Jagged.LazyArraysAgree | torchrec/sparse/jagged_tensor.py:71-86 | lengths derived from the cumsum of `l` are `l`, and offsets derived from `l` equal that cumsum |
| Jagged.CheckAttributes | torchrec/sparse/jagged_tensor.py:1090-1117 | true exactly when both are absent or both are present and equal |
| Jagged.SliceRows | torchrec/sparse/jagged_tensor.py:395-400 | the slicing loop over consecutive offsets yields exactly the row blocks of the buffer |
| Jagged.JaggedTensor.constructor | torchrec/sparse/jagged_tensor.py:273-281 | stores values, weights, lengths and offsets as given |
| Jagged.JaggedTensor.New | torchrec/sparse/jagged_tensor.py:101-104 | fails with the AssertionError message exactly when neither lengths nor offsets is given, otherwise builds the tensor from the arguments |
| Jagged.JaggedTensor.Empty | torchrec/sparse/jagged_tensor.py:284-299 | a fresh valid tensor with no values and no rows, weighted exactly when asked |
| Jagged.JaggedTensor.FromDense | torchrec/sparse/jagged_tensor.py:323-369 | values are the concatenated pieces, lengths are the piece sizes, weights the concatenated weight pieces |
| Jagged.JaggedTensor.Lengths | torchrec/sparse/jagged_tensor.py:537-540 | returns the row lengths, stores them, keeps offsets, and returns stored lengths unchanged |
| Jagged.JaggedTensor.Offsets | torchrec/sparse/jagged_tensor.py:545-548 | returns the row offsets, stores them, keeps lengths, and returns stored offsets unchanged |
| Jagged.JaggedTensor.ToDense | torchrec/sparse/jagged_tensor.py:371-400 | returns the value buffer cut into rows |
| Jagged.JaggedTensor.ToDenseWeights | torchrec/sparse/jagged_tensor.py:402-434 | returns None without weights, otherwise the weight buffer cut into rows |
| Jagged.JaggedTensor.ForceLengthOffsetComputation | torchrec/sparse/jagged_tensor.py:1074-1087 | afterwards both arrays are present and the rows are unchanged |
| Jagged.JtIsEqual | torchrec/sparse/jagged_tensor.py:978-1015 | true exactly when values, weights, row lengths and row offsets agree; unequal values leave both tensors untouched |
| KjtSpec.MaybeComputeStride | torchrec/sparse/jagged_tensor.py:665-680 | a given stride is kept; an inferred one is non-negative |
| KjtSpec.InferredStrideIsBatchSize | torchrec/sparse/jagged_tensor.py:671-679 | with `K*s` rows the inferred stride is `s`, from lengths, from offsets, or from both |
| KjtSpec.CommonStrideMeansUniform | torchrec/sparse/jagged_tensor.py:1222-1225 | the stride is a common value exactly when all per-key strides are equal |
| KjtSpec.InitStrides | torchrec/sparse/jagged_tensor.py:1209-1235 | ValueError exactly when both `stride` and `stride_per_key_per_rank` are given; otherwise the variable or uniform layout with the inferred stride |
| KjtSpec.UniformLayout | torchrec/sparse/jagged_tensor.py:1234-1235 | uniform per-key strides are the stride repeated, and key `k`'s rows start at `k*stride` |
| KjtSpec.IndexPerKey | torchrec/sparse/jagged_tensor.py:656-662 | maps exactly the keys, each to a position holding it, and no later position holds it (last occurrence wins) |
| KjtSpec.IndexOfDistinctKeys | torchrec/sparse/jagged_tensor.py:656-662 | with distinct keys every key maps to its own position |
| KjtSpec.SplitSums | torchrec/sparse/jagged_tensor.py:727-729 | splitting succeeds exactly when the sizes partition the buffer, and yields the block sums |
| KjtSpec.ViewRowSums | torchrec/sparse/jagged_tensor.py:753 | the reshape succeeds exactly when the stride is positive and divides the length |
| KjtSpec.LengthPerKeyTotal | torchrec/sparse/jagged_tensor.py:714-761 | per-key lengths are non-negative and add up to the total row length |
| KjtSpec.LengthPerKeyAsWrittenAgrees | torchrec/sparse/jagged_tensor.py:732-761 | the code as written fails exactly for uniform stride 0 with non-empty offsets, and otherwise computes the per-key block sums |
| KjtSpec.UniformRowSums | torchrec/sparse/jagged_tensor.py:746-756 | for positive stride the reshape-and-sum equals the per-key block sums; stride 0 fits only empty lengths, whose block sums are zeros |
| KjtSpec.ZeroStrideLengthPerKeyCounterexample | torchrec/sparse/jagged_tensor.py:742-747 | offsets `[0]` with stride 0 make the code fail while the same rows given as lengths give `[0]` |
| KjtSpec.SumBySplitsIsBlockSums | torchrec/sparse/jagged_tensor.py:970-975 | `_sum_by_splits` is the per-block sum and preserves the total |
| KjtOps.KeyLengths | torchrec/sparse/jagged_tensor.py:1533-1544 | one length per key, and they partition the value buffer |
| KjtOps.OffsetBounds | torchrec/sparse/jagged_tensor.py:764-788 | element offsets and row offsets per key start at 0, end at the buffer sizes and never decrease |
| KjtOps.SplitContentWellFormed | torchrec/sparse/jagged_tensor.py:1637-1670 | a key window of a valid KJT is valid and its per-key lengths are the window of the original's |
| KjtOps.SplitWhole | torchrec/sparse/jagged_tensor.py:1587-1604 | the window of all keys is the KJT itself |
| KjtOps.SplitJoin | torchrec/sparse/jagged_tensor.py:1572-1673 | two adjacent key windows joined are the covering window |
| KjtOps.JoinWellFormed | torchrec/sparse/jagged_tensor.py:1290-1347 | joining two compatible KJTs gives a valid KJT whose per-key lengths are concatenated |
| KjtOps.ConcatWellFormed | torchrec/sparse/jagged_tensor.py:1290-1347 | the concatenation of a compatible non-empty list is valid, with per-key lengths concatenated |
| KjtOps.ConcatCheckPasses | torchrec/sparse/jagged_tensor.py:1293-1335 | concat raises nothing exactly when the list is non-empty and all agree on weightedness, stride mode and uniform stride |
| KjtOps.ListsAfterBuffers | torchrec/sparse/jagged_tensor.py:1314-1329 | after `n` rounds the key, value and length lists are the concatenations of the first `n` inputs |
| KjtOps.ListsAfterModes | torchrec/sparse/jagged_tensor.py:1327-1335 | after `n` rounds the weights and per-rank strides are concatenated and the uniform stride is the first one |
| KjtOps.LengthPerKeyAfterFlatten | torchrec/sparse/jagged_tensor.py:1318-1324 | the concatenated `length_per_key` is kept exactly when every input had it cached, and then equals the concatenated per-key lengths |
| KjtOps.SplitThenConcat | torchrec/sparse/jagged_tensor.py:1572-1673 | concatenating the pieces of a split gives back the covered keys, and the whole KJT when the segments cover all keys |
| KjtOps.PermuteWellFormed | torchrec/sparse/jagged_tensor.py:1675-1752 | permuting by in-range indices gives a valid KJT whose per-key lengths are picked by the indices |
| KjtOps.PermuteIdentity | torchrec/sparse/jagged_tensor.py:1692-1730 | the identity permutation leaves the KJT unchanged |
| KjtOps.PermuteCompose | torchrec/sparse/jagged_tensor.py:1692-1730 | permuting twice is permuting once by the composed indices |
| KjtOps.PermuteInverse | torchrec/sparse/jagged_tensor.py:1692-1730 | permuting by a permutation and then by its inverse gives the KJT back |
| KjtOps.KeyJtBlocks | torchrec/sparse/jagged_tensor.py:1775-1795 | key `i`'s jagged tensor holds its element block of values and weights and its row block of lengths, and is valid |
| KjtOps.KeyJtOfSplit | torchrec/sparse/jagged_tensor.py:1637-1670 | key `j` of a split piece is key `a+j` of the original |
| KjtOps.KeyJtOfPermute | torchrec/sparse/jagged_tensor.py:1692-1730 | key `j` of the permuted KJT is key `indices[j]` of the original |
| KjtOps.JtDictContent | torchrec/sparse/jagged_tensor.py:891-955 | the dictionary has exactly the KJT's keys |
| KjtOps.JtDictLoopLastWins | torchrec/sparse/jagged_tensor.py:934-952 | the dictionary loop stores, for each key, the tensor of its last occurrence |
| KjtOps.ToDictAsWrittenAgrees | torchrec/sparse/jagged_tensor.py:891-955 | the code as written fails exactly for a uniform KJT with keys and no rows, and otherwise builds the per-key dictionary |
| KjtOps.ToDictEmptyRowsCounterexample | torchrec/sparse/jagged_tensor.py:922-945 | keys `["f"]` with stride 0 and no rows make the code raise IndexError while the intended dictionary maps `"f"` to an empty tensor |
| KjtOps.FromJtsContent | torchrec/sparse/jagged_tensor.py:1434-1463 | building from a dictionary fails exactly when it is empty |
| KjtOps.FromJtsWellFormed | torchrec/sparse/jagged_tensor.py:1434-1463 | the built KJT is valid, its per-key lengths are the value counts, and its weights are the concatenated weights |
| KjtOps.FromJtsKeyJt | torchrec/sparse/jagged_tensor.py:1434-1463 | key `i` of the built KJT is the `i`-th input tensor |
| KjtOps.FromJtsThenToDict | torchrec/sparse/jagged_tensor.py:1387-1464 | `to_dict` of `from_jt_dict(d)` gives `d` back, for distinct keys |
| Dist.DistSplitsCut | torchrec/sparse/jagged_tensor.py:1936-1953 | each split list partitions the tensor it goes with |
| Dist.SplitTotals | torchrec/sparse/jagged_tensor.py:1937-1938 | batch sizes per split partition the lengths and lengths per split partition the values |
| Dist.DistLabelsAligned | torchrec/sparse/jagged_tensor.py:1928-1953 | labels and tensors line up one to one, each label names its tensor, and labels are distinct |
| Dist.StaggeredAt | torchrec/sparse/jagged_tensor.py:2004-2014 | entry `i` of a staggered row is entry `i/n + (i%n)*L` of the original |
| Dist.StaggeredRoundTrip | torchrec/sparse/jagged_tensor.py:2004-2014 | staggering by `L` and then by `n` restores the row |
| Dist.DistRoundTrip | torchrec/sparse/jagged_tensor.py:1946-2060 | with one worker, `dist_init` of a KJT's own `dist_tensors` rebuilds it |
| Dist.KeyMajorPick | torchrec/sparse/jagged_tensor.py:1978-1980 | the key-major recat picks rank-major entries in the transposed order |
| Dist.GatherKeyMajor | torchrec/sparse/jagged_tensor.py:1989-2001 | gathering rank-major blocks with the key-major recat groups every key's blocks together |
| Dist.GatherKeyMajorSums | torchrec/sparse/jagged_tensor.py:1981-1987 | the per-key sums after the recat are the per-rank sums regrouped by key |
| Dist.VariableArrivalByKey | torchrec/sparse/jagged_tensor.py:1976-2022 | with the key-major recat the variable-stride rebuild succeeds, is valid, and holds each key's data from every rank |
| Dist.UniformArrivalIs | torchrec/sparse/jagged_tensor.py:2024-2060 | the uniform rebuild gathers lengths, values and weights by the recat with stride `workers*stride` |
| Dist.UniformArrivalByKey | torchrec/sparse/jagged_tensor.py:2024-2060 | with the key-major recat the uniform rebuild succeeds, is valid, and holds each key's data from every rank |
| KeyedJagged.BindTensors | torchrec/sparse/jagged_tensor.py:934-952 | the loop binds each key to a fresh valid tensor holding the last-occurrence data |
| KeyedJagged.Concat | torchrec/sparse/jagged_tensor.py:1290-1347 | fails with the error concat raises, otherwise returns a fresh KJT with the concatenated contents and the cached `length_per_key` passed through |
| KeyedJagged.StrideModes | torchrec/sparse/jagged_tensor.py:1306-1312 | reports mixed exactly when some input's stride mode differs from the first |
| KeyedJagged.Empty | torchrec/sparse/jagged_tensor.py:1350-1366 | a fresh valid KJT with no keys, values or rows and stride 0 |
| KeyedJagged.EmptyLike | torchrec/sparse/jagged_tensor.py:1369-1384 | a fresh empty KJT with the input's weightedness and stride layout; valid exactly when the input is uniform or has no keys |
| KeyedJagged.KeysEqual | torchrec/sparse/jagged_tensor.py:1036-1043 | true exactly when the key lists are equal |
| KeyedJagged.KjtIsEqual | torchrec/sparse/jagged_tensor.py:1018-1071 | true exactly when keys, values, weights, rows, row offsets, per-key lengths and stride agree; equal KJTs with rows compare equal |
| KeyedJagged.FromJtDict | torchrec/sparse/jagged_tensor.py:1387-1464 | fails exactly on an empty dictionary, otherwise a fresh synced KJT with the concatenated contents, leaving the inputs' data unchanged |
| KeyedJagged.BuildSynced | torchrec/sparse/jagged_tensor.py:1269-1288 | a fresh valid KJT on the given buffers with `length_per_key` and `offset_per_key` filled |
| KeyedJagged.StaggerRanks | torchrec/sparse/jagged_tensor.py:2004-2014 | the stagger loop returns every key's per-rank list re-interleaved |
| KeyedJagged.DistInitVariable | torchrec/sparse/jagged_tensor.py:1976-2022 | fails exactly as the variable-stride rebuild does, otherwise a fresh synced KJT holding it |
| KeyedJagged.DistInitUniform | torchrec/sparse/jagged_tensor.py:2023-2060 | fails exactly as the uniform rebuild does, otherwise a fresh synced KJT holding it |
| KeyedJagged.DistInit | torchrec/sparse/jagged_tensor.py:1956-2060 | fails exactly as the rebuild does (tensor count, missing strides), otherwise a fresh synced KJT holding the received data |
| KeyedJagged.KeyedJaggedTensor.constructor | torchrec/sparse/jagged_tensor.py:1200-1245 | stores the buffers, resolved strides and given caches; `lengths_offset_per_key` starts empty |
| KeyedJagged.KeyedJaggedTensor.New | torchrec/sparse/jagged_tensor.py:1214-1235 | ValueError exactly when both stride arguments are given, otherwise the stride fields are the resolved layout |
| KeyedJagged.KeyedJaggedTensor.Lengths | torchrec/sparse/jagged_tensor.py:1479-1482 | returns the row lengths and fills only the lengths cache; stored lengths are returned unchanged |
| KeyedJagged.KeyedJaggedTensor.Offsets | torchrec/sparse/jagged_tensor.py:1487-1490 | returns offsets agreeing with the rows and fills only the offsets cache; stored offsets are returned unchanged |
| KeyedJagged.KeyedJaggedTensor.KeyIndices | torchrec/sparse/jagged_tensor.py:1525-1531 | returns the last-occurrence index map and fills only that cache |
| KeyedJagged.KeyedJaggedTensor.LengthPerKey | torchrec/sparse/jagged_tensor.py:1533-1544 | returns the per-key lengths and fills only that cache; a cached value is returned unchanged |
| KeyedJagged.KeyedJaggedTensor.OffsetPerKey | torchrec/sparse/jagged_tensor.py:1549-1562 | returns the cumsum of the per-key lengths and fills both per-key caches |
| KeyedJagged.KeyedJaggedTensor.LengthsOffsetPerKey | torchrec/sparse/jagged_tensor.py:1567-1570 | returns the row-space offsets per key and fills only that cache |
| KeyedJagged.KeyedJaggedTensor.ForceLengthOffsetComputation | torchrec/sparse/jagged_tensor.py:1074-1087 | fills lengths and offsets with what the rows imply and nothing else |
| KeyedJagged.KeyedJaggedTensor.PrepareForComparison | torchrec/sparse/jagged_tensor.py:1048-1052 | fills lengths, offsets and both per-key caches and nothing else |
| KeyedJagged.KeyedJaggedTensor.Sync | torchrec/sparse/jagged_tensor.py:1466-1469 | fills exactly `length_per_key` and `offset_per_key` |
| KeyedJagged.KeyedJaggedTensor.Unsync | torchrec/sparse/jagged_tensor.py:1471-1474 | clears exactly `length_per_key` and `offset_per_key` |
| KeyedJagged.KeyedJaggedTensor.DistSplits | torchrec/sparse/jagged_tensor.py:1936-1944 | returns the split lists of the contents and fills only `length_per_key` |
| KeyedJagged.KeyedJaggedTensor.DistTensors | torchrec/sparse/jagged_tensor.py:1946-1953 | returns the tensors to send and fills only the lengths cache |
| KeyedJagged.KeyedJaggedTensor.FlattenLengths | torchrec/sparse/jagged_tensor.py:1754-1773 | a fresh KJT with the same contents, lengths and per-key lengths cached and nothing else |
| KeyedJagged.KeyedJaggedTensor.Split | torchrec/sparse/jagged_tensor.py:1572-1673 | IndexError exactly when the segments overrun the keys, otherwise one fresh valid KJT per segment holding that key window |
| KeyedJagged.KeyedJaggedTensor.Permute | torchrec/sparse/jagged_tensor.py:1675-1752 | IndexError exactly for an out-of-range index, RuntimeError for a uniform KJT without rows, otherwise a fresh valid KJT with the permuted contents and inverse indices carried only when asked |
| KeyedJagged.KeyedJaggedTensor.GetItem | torchrec/sparse/jagged_tensor.py:1775-1795 | KeyError exactly for an absent key, otherwise a fresh tensor holding that key's (last occurrence's) data |
| KeyedJagged.KeyedJaggedTensor.ToDict | torchrec/sparse/jagged_tensor.py:1797-1810 | maps exactly the keys to valid tensors holding their data, reuses a cached dictionary and caches the result |
| KeyedTensors.KtDictByIndex | torchrec/sparse/jagged_tensor.py:2256-2261 | the dictionary built from split values and the index map is the per-key block dictionary |
| KeyedTensors.NarrowIsBlock | torchrec/sparse/jagged_tensor.py:2250-2254 | narrowing at the key's offset and length gives the key's block |
| KeyedTensors.KtDictRoundTrip | torchrec/sparse/jagged_tensor.py:2256-2261 | with distinct keys, concatenating the dictionary's blocks in key order gives the values back |
| KeyedTensors.FromTensorListRoundTrip | torchrec/sparse/jagged_tensor.py:2211-2220 | with distinct keys, each key's block of the built tensor is its input tensor |
| KeyedTensors.KeyedTensor.constructor | torchrec/sparse/jagged_tensor.py:2192-2209 | stores the keys, lengths, values, key dim and given caches |
| KeyedTensors.KeyedTensor.OffsetPerKey | torchrec/sparse/jagged_tensor.py:2231-2237 | returns and caches the cumsum of lengths, from 0 to the total width |
| KeyedTensors.KeyedTensor.KeyIndices | torchrec/sparse/jagged_tensor.py:2242-2248 | returns and caches the last-occurrence index map |
| KeyedTensors.KeyedTensor.GetItem | torchrec/sparse/jagged_tensor.py:2250-2254 | KeyError exactly for an absent key, otherwise the key's block |
| KeyedTensors.KeyedTensor.ToDict | torchrec/sparse/jagged_tensor.py:2256-2261 | returns the per-key block dictionary, caching only the index map |
| KeyedTensors.FromTensorList | torchrec/sparse/jagged_tensor.py:2211-2220 | RuntimeError exactly for an empty list, otherwise the concatenated blocks with their widths |
| KeyedTensors.OwnersKnown | torchrec/sparse/jagged_tensor.py:125-128 | every key of every input has an owner |
| KeyedTensors.OwnersHold | torchrec/sparse/jagged_tensor.py:125-128 | a key's owner holds the key |
| KeyedTensors.OwnersLast | torchrec/sparse/jagged_tensor.py:125-128 | no later input holds the key than its owner (last wins) |
| KeyedTensors.Matches | torchrec/sparse/jagged_tensor.py:111-117 | the shortcut test succeeds exactly when the groups are the inputs' key lists |
| KeyedTensors.ShortcutAgrees | torchrec/sparse/jagged_tensor.py:111-141 | when the shortcut applies, the general path would return the same values |
| KeyedTensors.KeyOwners | torchrec/sparse/jagged_tensor.py:125-128 | the owner loop computes the last-occurrence owner map |
| KeyedTensors.ToDicts | torchrec/sparse/jagged_tensor.py:121 | the dictionaries of all inputs, caching their index maps |
| KeyedTensors.KeyIndicesOf | torchrec/sparse/jagged_tensor.py:123 | the index maps of all inputs |
| KeyedTensors.CatGroup | torchrec/sparse/jagged_tensor.py:133-137 | finds every name exactly when all are known, and then collects their blocks and total width |
| KeyedTensors.CatThenSplit | torchrec/sparse/jagged_tensor.py:138-141 | splitting the concatenation by group widths gives each group's concatenated blocks |
| KeyedTensors.GeneralOfKnown | torchrec/sparse/jagged_tensor.py:121-141 | with known names and a non-empty group the result is each group's concatenated blocks |
| KeyedTensors.GeneralOfEmpty | torchrec/sparse/jagged_tensor.py:138 | with only empty groups the concatenation raises RuntimeError |
| KeyedTensors.UnknownGroup | torchrec/sparse/jagged_tensor.py:135 | an unknown name raises KeyError |
| KeyedTensors.CatGroups | torchrec/sparse/jagged_tensor.py:130-141 | the group loop computes the general regroup result |
| KeyedTensors.Regroup | torchrec/sparse/jagged_tensor.py:2263-2267 | returns the regroup result; index caches are filled only off the shortcut |
| KeyedTensors.RegroupedAsDictAt | torchrec/sparse/jagged_tensor.py:2269-2278 | with matching lengths the dictionary maps each key to its group's tensor |
| KeyedTensors.RegroupAsDict | torchrec/sparse/jagged_tensor.py:2269-2278 | returns the dictionary result, AssertionError on a length mismatch |
| Twrw.CeilDiv | torchrec/distributed/sharding/twrw_sharding.py:283-285 | the result is the ceiling: `L*(r-1) < h <= L*r` |
| Twrw.BlockSizes | torchrec/distributed/sharding/twrw_sharding.py:283-285 | one ceiling block size per feature |
| Twrw.BucketInRange | torchrec/distributed/sharding/twrw_sharding.py:283-285 | every id below the hash size falls in one of the `L` buckets |
| Twrw.ShuffleAt | torchrec/distributed/sharding/twrw_sharding.py:364-369 | the entry at node `n`, bucket `b`, feature `k` is `b*total + start(n) + k`: node-major, then bucket, then feature |
| Twrw.ShuffleLength | torchrec/distributed/sharding/twrw_sharding.py:364-369 | the shuffle has `local_size*num_features` entries |
| Twrw.UnshuffleAt | torchrec/distributed/sharding/twrw_sharding.py:364-369 | the inverse index points at the position holding each value |
| Twrw.ShufflePermutation | torchrec/distributed/sharding/twrw_sharding.py:351-369 | the shuffle and its inverse are in range and compose to the identity both ways |
| Twrw.ShuffleRoundTrip | torchrec/distributed/sharding/twrw_sharding.py:351-369 | permuting a KJT by the shuffle gives a valid KJT, and the inverse permutation restores it |
| Twrw.NewFeaturesDist | torchrec/distributed/sharding/twrw_sharding.py:276-289 | ZeroDivisionError for local size 0, the node-granularity AssertionError, otherwise `num_cross_nodes*L == world_size`, the ceiling block sizes and the shuffle |
| Twrw.FeaturesDistShuffle | torchrec/distributed/sharding/twrw_sharding.py:287-289 | the stored shuffle permutes a KJT with the right key count and can be undone |
| Twrw.CrossGroup | torchrec/distributed/sharding/twrw_sharding.py:481-486 | entry `n` of local rank `l`'s group is `batch_size_per_rank[l + n*L]` |
| Twrw.ByCrossGroup | torchrec/distributed/sharding/twrw_sharding.py:469-489 | IndexError exactly when some index overruns, otherwise `L` groups of `nodes` entries with each sum the sum of its group |
| Twrw.ByCrossGroupAt | torchrec/distributed/sharding/twrw_sharding.py:481-486 | on success group `l` entry `n` is `batch_size_per_rank[l + n*L]` |
| Twrw.PreprocessBatchSizePerRank | torchrec/distributed/sharding/twrw_sharding.py:469-489 | the nested loops compute exactly the cross-group transpose and sums, or IndexError |
| Twrw.CrossGroupCovers | torchrec/distributed/sharding/twrw_sharding.py:469-489 | with `L*nodes` ranks every rank's batch size appears at `[i%L][i/L]` |
| Twrw.CrossGroupTotal | torchrec/distributed/sharding/twrw_sharding.py:478-489 | with `L*nodes` ranks the group sums total the sum of all batch sizes |
| Twrw.FirstErrorNone | torchrec/distributed/sharding/twrw_sharding.py:112-145 | no table fails exactly when every table's ranks, node and shards fit |
| Twrw.Entry | torchrec/distributed/sharding/twrw_sharding.py:134-145 | the placed table carries the table's name and its shard index |
| Twrw.Sharded | torchrec/distributed/sharding/twrw_sharding.py:103-158 | fails exactly when some table fails, otherwise one list per rank |
| Twrw.PlaceOnNode | torchrec/distributed/sharding/twrw_sharding.py:129-156 | succeeds exactly when the node's ranks and shards exist, and then appends shard `q-lo` to each rank `q` of the node and leaves other ranks unchanged |
| Twrw.Shard | torchrec/distributed/sharding/twrw_sharding.py:103-158 | the placement loops compute exactly the per-rank table lists, or the error the first failing table raises |
| Twrw.PlacedMember | torchrec/distributed/sharding/twrw_sharding.py:112-156 | a table is on a rank exactly when some table's node is the rank's node and the shard is the rank's local index |
| Twrw.ShardPlacement | torchrec/distributed/sharding/twrw_sharding.py:112-156 | shard `s` of every table is on rank `node*L + s` |
| Twrw.ShardContents | torchrec/distributed/sharding/twrw_sharding.py:112-156 | every entry on rank `q` is shard `q % L` of a table placed on `q`'s node |

## Left out

- KeyedJagged.KeyedJaggedTensor.Split: requires non-negative segments; Python would slice with a negative segment from the end of the key list, which the model does not represent.
- KeyedJagged.KeyedJaggedTensor.Permute: requires non-negative indices; Python's `self.keys()[index]` also accepts a negative index counted from the end.
- KeyedJagged.KeyedJaggedTensor.DistSplits: requires non-negative key splits, for the same reason.
- KeyedJagged.KeyedJaggedTensor.LengthPerKey: on a uniform KJT with keys, stride 0 and stored offsets `[0]` the code raises RuntimeError at torchrec/sparse/jagged_tensor.py:746 (`view(-1, 0)`); the model returns the corrected zeros of the first "## Findings" row, and so do `OffsetPerKey`, `GetItem`, `Split`, `DistSplits`, `FlattenLengths`, `Sync`, `PrepareForComparison`, `ToDict` and `KeyedJagged.KjtIsEqual`, which read the per-key lengths.
- KeyedJagged.KeyedJaggedTensor.ToDict: on a uniform KJT with keys and no rows (lengths `[]`, stride 0) the code raises IndexError at torchrec/sparse/jagged_tensor.py:935 and 945; the model returns one empty tensor per key, the corrected dictionary of the second "## Findings" row.
- KeyedJagged.FromJtDict: requires all tensors to be weighted or all unweighted; for a mixed dictionary the code builds, without raising, a KJT whose weights are shorter than its values, which the class invariant cannot hold.
- KeyedJagged.DistInit: requires the received tensors to have consistent sizes and the rebuilt buffers to form a valid KJT; the code accepts any tensors and fails later inside `sync()`. `Dist.VariableArrivalByKey` and `Dist.UniformArrivalByKey` discharge the second requirement for the key-major recat.
- KeyedJagged.DistInitVariable: same requirement as `DistInit`.
- KeyedJagged.DistInitUniform: same requirement as `DistInit`.
- KeyedJagged.Concat: does not modify its inputs; the code's `kjt.lengths()` call at torchrec/sparse/jagged_tensor.py:1329 also fills each input's `_lengths` cache, a side effect on the inputs that the model does not state.
- Jagged.JaggedTensor.constructor: requires lengths or offsets; the failing case is modelled by `Jagged.JaggedTensor.New`.
- KeyedJagged.KeyedJaggedTensor.constructor: takes the strides already resolved; the resolution and its ValueError are modelled by `KeyedJagged.KeyedJaggedTensor.New` and `KjtSpec.InitStrides`.
- KeyedJagged.KeyedJaggedTensor: every method requires `Valid()`, the consistent-buffer contract of the class docstring (offsets agree with lengths, per-key strides partition the rows, caches hold what they would compute); a KJT with keys, empty offsets and no lengths is outside it.
- KeyedJagged.EmptyLike: for a variable-stride input with keys the result keeps the per-key strides with no keys; the contract says it is then not valid rather than modelling that object further.
- `from_offsets_sync` and `from_lengths_sync`: only the constructor-then-`sync()` shape is modelled, as `KeyedJagged.BuildSynced`.
- Twrw.CeilDiv: `math.ceil` of a float quotient is modelled as exact integer ceiling division; rounding of very large hash sizes in floating point is not modelled.
- Twrw.Shard: ranks, local size and world size are natural numbers, so negative Python indices into `tables_per_rank` and `shards` are not modelled; each placed table keeps only its name, shard index and local rows, and the other `ShardedEmbeddingTable` fields and the global sharded-tensor metadata are not modelled.
- Twrw.NewFeaturesDist: the process group is reduced to its size; the registered device tensors are the lists they hold.
- Twrw.PreprocessBatchSizePerRank: local size and node count are natural numbers; negative Python indices are not modelled.
- Process groups, all-to-all and reduce-scatter dists, awaitables, `bucketize_kjt_before_all2all`, `group_tables`, lookup construction and the `embedding_dims`/`embedding_names`/`feature_names` accessors: network I/O, concurrency or calls into code outside this model.
- fbgemm kernels: given their intended meaning (`CompleteCumsum`, `Gather`, `BlockSums`) rather than modelled; `_use_segment_sum_csr` is a floating-point speed heuristic whose two branches compute the same sums.
- `torch.allclose` comparisons: values are integers and compared exactly.
- Padded dense conversion (`to_padded_dense*`, `from_dense_lengths`), device moves, pinned memory and streams, pytree/fx flatten helpers, the jit-tracing stride branch, dynamo `torch._check` calls, `__str__` formatting, and the integer-dtype assertion on lengths and offsets: dense kernels, device state or tracing machinery outside this model.
- `KeyedTensor`: only the keyed axis is modelled, as a sequence of column blocks; `cat_dim` different from `key_dim` and the other tensor dimensions are not.
- Duplicate keys follow the code: `index_per_key`, `to_dict` and the regroup owner map all keep the last occurrence.

## Findings

| source | as written | input that shows it | evidently intended | confidence | as-written member | corrected member |
|---|---|---|---|---|---|---|
| torchrec/sparse/jagged_tensor.py:742-747 | uniform `length_per_key` from offsets reshapes `diff(offsets)` with `view(-1, stride)`, which raises when the stride is 0 | keys `["f"]`, values `[]`, offsets `[0]`, no stride given, so the inferred stride is 0 | the same answer as the lengths branch at 753-755, which guards the empty case and returns `[0] * len(keys)` | not executed | KjtSpec.ZeroStrideLengthPerKeyCounterexample | KjtSpec.LengthPerKeyTotal |
| torchrec/sparse/jagged_tensor.py:922-945 | in uniform mode with no rows `unbind` of the empty lengths yields no rows, and `split_lengths[idx]` raises IndexError, because the guard at 902 sees the non-empty `[0]` per-key lengths | keys `["f"]`, values `[]`, lengths `[]`, stride 0 | one empty jagged tensor per key | not executed | KjtOps.ToDictEmptyRowsCounterexample | KjtOps.JtDictContent |
