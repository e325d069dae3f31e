// The pure bookkeeping behind `KeyedJaggedTensor`: stride inference, the
// per-key stride lists, the key-to-index map, per-key lengths and
// `_sum_by_splits`.
//
// A KJT lays its rows out key-major: key k owns `stride_per_key[k]`
// consecutive rows of `lengths` (the row space) and `length_per_key[k]`
// consecutive entries of `values` (the element space).

module KjtSpec {
  import opened Wrappers
  import opened Prefix
  import opened Segments
  import opened Jagged

  /** The stride fields a KJT constructor leaves behind. */
  datatype Strides = Strides(stride: int, stridePerKeyPerRank: seq<seq<int>>, stridePerKey: seq<int>, variable: bool)

  /** `[sum(s) for s in stride_per_key_per_rank]` */
  function PerKeySums(spkpr: seq<seq<int>>): (r: seq<int>)
    ensures |r| == |spkpr|
  {
    seq(|spkpr|, k requires 0 <= k < |spkpr| => Sum(spkpr[k]))
  }

  /** `_maybe_compute_stride_kjt`: a given stride, else the batch size read off the row arrays. */
  function MaybeComputeStride(numKeys: nat, stride: Option<int>, lengths: Option<seq<int>>, offsets: Option<seq<int>>): (r: int)
    ensures stride.Some? ==> r == stride.value
    ensures stride.None? ==> r >= 0
  {
    if stride.Some? then stride.value
    else if numKeys == 0 then 0
    else if offsets.Some? && |offsets.value| > 0 then (|offsets.value| - 1) / numKeys
    else if lengths.Some? then |lengths.value| / numKeys
    else 0
  }

  lemma DivExact(k: int, s: int)
    requires k > 0 && s >= 0
    ensures (k * s) / k == s && (k * s) % k == 0
  {
    var q, m := (k * s) / k, (k * s) % k;
    assert k * s == q * k + m && 0 <= m < k;
    assert k * (s - q) == m;
    if s - q >= 1 {
      assert false;
    } else if s - q <= -1 {
      assert false;
    }
  }

  /** Rows laid out as |keys| blocks of `s` give back `s` as the inferred stride, from either array. */
  lemma InferredStrideIsBatchSize(numKeys: nat, s: nat, l: seq<int>)
    requires numKeys > 0 && |l| == numKeys * s
    ensures MaybeComputeStride(numKeys, None, Some(l), None) == s
    ensures MaybeComputeStride(numKeys, None, None, Some(CompleteCumsum(l))) == s
    ensures MaybeComputeStride(numKeys, None, Some(l), Some(CompleteCumsum(l))) == s
  {
    CumsumShape(l);
    DivExact(numKeys, s);
  }

  /** The uniform stride of a variable-stride KJT: 0 without keys, the common per-key stride, else -1. */
  function CommonStride(spk: seq<int>): int
  {
    if spk == [] then 0
    else if forall k :: 0 <= k < |spk| ==> spk[k] == spk[0] then spk[0]
    else -1
  }

  /** With non-negative per-key strides, a stride is reported exactly when every key has that batch size. */
  lemma CommonStrideMeansUniform(spk: seq<int>)
    requires AllNonNeg(spk)
    ensures CommonStride(spk) >= 0 <==> spk == Repeat(if spk == [] then 0 else spk[0], |spk|)
    ensures CommonStride(spk) >= 0 ==> spk == Repeat(CommonStride(spk), |spk|)
  {
    if spk != [] && spk == Repeat(spk[0], |spk|) {
      assert forall k :: 0 <= k < |spk| ==> spk[k] == spk[0];
    }
  }

  /** Constructor, `stride_per_key_per_rank` given: variable stride per key. */
  function VariableStrides(spkpr: seq<seq<int>>): Strides
  {
    var spk := PerKeySums(spkpr);
    Strides(CommonStride(spk), spkpr, spk, true)
  }

  /** Constructor, no `stride_per_key_per_rank`: every key has `stride` rows in one rank. */
  function UniformStrides(numKeys: nat, stride: int): Strides
  {
    var spkpr := Repeat([stride], numKeys);
    Strides(stride, spkpr, PerKeySums(spkpr), false)
  }

  /** The stride bookkeeping of `KeyedJaggedTensor.__init__`, with its ValueError. */
  function InitStrides(numKeys: nat, stride: Option<int>, spkpr: Option<seq<seq<int>>>,
                       lengths: Option<seq<int>>, offsets: Option<seq<int>>): (r: Result<Strides, Error>)
    ensures r.Failure? <==> stride.Some? && spkpr.Some?
    ensures r.Failure? ==> r.error == ValueError("Cannot initialize KJT with both `stride` and `stride_per_key_per_rank`")
    ensures r.Success? ==> r.value.variable == spkpr.Some?
    ensures r.Success? && spkpr.Some? ==> r.value == VariableStrides(spkpr.value)
    ensures r.Success? && spkpr.None? ==> r.value == UniformStrides(numKeys, MaybeComputeStride(numKeys, stride, lengths, offsets))
  {
    if spkpr.Some? then
      if stride.Some? then Failure(ValueError("Cannot initialize KJT with both `stride` and `stride_per_key_per_rank`"))
      else Success(VariableStrides(spkpr.value))
    else Success(UniformStrides(numKeys, MaybeComputeStride(numKeys, stride, lengths, offsets)))
  }

  lemma {:induction false} CumsumOfRepeat(s: int, n: nat, k: int)
    requires 0 <= k <= n
    ensures CompleteCumsum(Repeat(s, n))[k] == k * s
  {
    assert Repeat(s, n)[..k] == Repeat(s, k);
    SumRepeat(s, k);
  }

  /**
   * Uniform mode: every key has `stride` rows, so key k's rows start at
   * `k * stride` and the key count times the stride is the row count.
   */
  lemma UniformLayout(numKeys: nat, stride: int)
    ensures UniformStrides(numKeys, stride).stridePerKey == Repeat(stride, numKeys)
    ensures forall k :: 0 <= k <= numKeys ==> CompleteCumsum(Repeat(stride, numKeys))[k] == k * stride
  {
    var spkpr := Repeat([stride], numKeys);
    forall k | 0 <= k < numKeys
      ensures Sum(spkpr[k]) == stride
    {
      assert [stride][..0] == [];
    }
    forall k | 0 <= k <= numKeys
      ensures CompleteCumsum(Repeat(stride, numKeys))[k] == k * stride
    {
      CumsumOfRepeat(stride, numKeys, k);
    }
  }

  /** Stride fields that belong together, as every constructor path leaves them. */
  predicate StridesValid(numKeys: nat, s: Strides)
  {
    && |s.stridePerKeyPerRank| == numKeys
    && s.stridePerKey == PerKeySums(s.stridePerKeyPerRank)
    && AllNonNeg(s.stridePerKey)
    && (if s.variable then s.stride == CommonStride(s.stridePerKey)
        else s.stridePerKeyPerRank == Repeat([s.stride], numKeys) && s.stride >= 0)
  }

  lemma UniformStridesValid(numKeys: nat, stride: nat)
    ensures StridesValid(numKeys, UniformStrides(numKeys, stride))
  {
    UniformLayout(numKeys, stride);
  }

  /** `_maybe_compute_index_per_key`: `{key: i for i, key in enumerate(keys)}`, so the last occurrence wins. */
  function IndexPerKey(keys: seq<string>): (r: map<string, int>)
    ensures forall key :: key in r <==> key in keys
    ensures forall key :: key in r ==> 0 <= r[key] < |keys| && keys[r[key]] == key
    ensures forall key, j :: key in r && r[key] < j < |keys| ==> keys[j] != key
  {
    if keys == [] then map[]
    else
      var n := |keys|;
      assert forall j :: 0 <= j < n - 1 ==> keys[..n - 1][j] == keys[j];
      IndexPerKey(keys[..n - 1])[keys[n - 1] := n - 1]
  }

  /** With distinct keys, the map sends every key to its own position. */
  lemma IndexOfDistinctKeys(keys: seq<string>)
    requires forall i, j :: 0 <= i < j < |keys| ==> keys[i] != keys[j]
    ensures forall i :: 0 <= i < |keys| ==> IndexPerKey(keys)[keys[i]] == i
  {
    var r := IndexPerKey(keys);
    forall i | 0 <= i < |keys|
      ensures r[keys[i]] == i
    {
      assert keys[i] in keys;
    }
  }

  /** `torch.split(t, sizes)` followed by a sum per chunk; a split that does not cover `t` raises. */
  function SplitSums(t: seq<int>, sizes: seq<int>): (r: Result<seq<int>, Error>)
    ensures r.Success? <==> Partitions(sizes, |t|)
    ensures r.Success? ==> r.value == BlockSums(t, sizes)
  {
    if Partitions(sizes, |t|) then Success(BlockSums(t, sizes))
    else Failure(RuntimeError("split_with_sizes expects split_sizes to sum exactly to the tensor size"))
  }

  /** `torch.sum(t.view(-1, stride), dim=1)`: one sum per row of `stride` entries; a shape that cannot be inferred raises. */
  function ViewRowSums(t: seq<int>, stride: int): (r: Result<seq<int>, Error>)
    ensures r.Success? <==> stride > 0 && |t| % stride == 0
  {
    if stride > 0 && |t| % stride == 0 then
      var rows := |t| / stride;
      assert Partitions(Repeat(stride, rows), |t|) by {
        SumRepeat(stride, rows);
      }
      Success(BlockSums(t, Repeat(stride, rows)))
    else Failure(RuntimeError("shape '[-1, stride]' is invalid for input"))
  }

  /**
   * The row layout a valid KJT keeps: a row array is present, the per-key
   * strides split the rows, stored offsets agree with the rows, and offsets
   * alone are never the empty tensor while there are keys.
   */
  predicate RowsValid(numKeys: nat, spk: seq<int>, lengths: Option<seq<int>>, offsets: Option<seq<int>>)
  {
    var l := RowLengthsOf(lengths, offsets);
    && (lengths.Some? || offsets.Some?)
    && AllNonNeg(l)
    && Partitions(spk, |l|)
    && OffsetsAgree(offsets, l)
    && (numKeys > 0 && lengths.None? ==> offsets.value != [])
  }

  /** `length_per_key[k]`: the sum of key k's block of rows. */
  function LengthPerKey(l: seq<int>, spk: seq<int>): (r: seq<int>)
    requires Partitions(spk, |l|)
    ensures |r| == |spk|
  {
    BlockSums(l, spk)
  }

  /** The per-key lengths partition the values: `offset_per_key[-1] == sum(lengths)`. */
  lemma LengthPerKeyTotal(l: seq<int>, spk: seq<int>)
    requires Partitions(spk, |l|) && AllNonNeg(l)
    ensures Sum(LengthPerKey(l, spk)) == Sum(l)
    ensures AllNonNeg(LengthPerKey(l, spk))
    ensures CompleteCumsum(LengthPerKey(l, spk))[|spk|] == Sum(l)
  {
    BlockSumsTotal(l, spk);
    CumsumEnds(LengthPerKey(l, spk));
    forall k | 0 <= k < |spk|
      ensures LengthPerKey(l, spk)[k] >= 0
    {
      BlockNonNeg(l, spk, k);
    }
  }

  /**
   * `_maybe_compute_length_per_key` without a cache, branch for branch: the
   * row sums come from the offsets when they are present and non-empty, else
   * from the lengths; uniform mode reshapes the rows to `(-1, stride)`.
   */
  function LengthPerKeyAsWritten(numKeys: nat, stride: int, spk: seq<int>, variable: bool,
                                 lengths: Option<seq<int>>, offsets: Option<seq<int>>): Result<seq<int>, Error>
  {
    if numKeys > 0 && offsets.Some? && |offsets.value| > 0 then
      var d := ToLengths(offsets.value);
      if variable then SplitSums(d, spk) else ViewRowSums(d, stride)
    else if numKeys > 0 && lengths.Some? then
      if variable then SplitSums(lengths.value, spk)
      else if |lengths.value| != 0 then ViewRowSums(lengths.value, stride)
      else Success(Repeat(0, numKeys))
    else Success([])
  }

  /**
   * On a valid layout the code as written computes `LengthPerKey`, except in
   * one case: uniform stride 0 with keys and non-empty offsets (necessarily
   * `[0]`), where `view(-1, 0)` raises although the rows are simply empty.
   */
  lemma LengthPerKeyAsWrittenAgrees(numKeys: nat, s: Strides, lengths: Option<seq<int>>, offsets: Option<seq<int>>)
    requires StridesValid(numKeys, s) && RowsValid(numKeys, s.stridePerKey, lengths, offsets)
    ensures var r := LengthPerKeyAsWritten(numKeys, s.stride, s.stridePerKey, s.variable, lengths, offsets);
      && (r.Failure? <==> !s.variable && numKeys > 0 && s.stride == 0 && offsets.Some? && |offsets.value| > 0)
      && (r.Success? ==> r.value == LengthPerKey(RowLengthsOf(lengths, offsets), s.stridePerKey))
  {
    var l := RowLengthsOf(lengths, offsets);
    if offsets.Some? && |offsets.value| > 0 {
      StoredOffsetsGiveRows(lengths, offsets);
    }
    if s.variable {
      if numKeys == 0 {
        assert s.stridePerKey == [];
      }
    } else {
      UniformLayout(numKeys, s.stride);
      assert s.stridePerKey == Repeat(s.stride, numKeys);
      UniformRowSums(numKeys, s.stride, l);
    }
  }

  /** Non-empty stored offsets yield the row lengths by adjacent difference. */
  lemma StoredOffsetsGiveRows(lengths: Option<seq<int>>, offsets: Option<seq<int>>)
    requires offsets.Some? && |offsets.value| > 0
    requires OffsetsAgree(offsets, RowLengthsOf(lengths, offsets))
    ensures ToLengths(offsets.value) == RowLengthsOf(lengths, offsets)
  {
    if lengths.Some? {
      LengthsOfCumsum(lengths.value);
    }
  }

  /**
   * Uniform mode: reshaping the rows to `(-1, stride)` and summing each row
   * gives the per-key sums, except that a zero stride cannot be reshaped.
   */
  lemma UniformRowSums(numKeys: nat, stride: int, l: seq<int>)
    requires stride >= 0
    requires Partitions(Repeat(stride, numKeys), |l|)
    ensures numKeys > 0 && stride > 0 ==> ViewRowSums(l, stride) == Success(BlockSums(l, Repeat(stride, numKeys)))
    ensures stride == 0 ==> ViewRowSums(l, stride).Failure? && l == [] && BlockSums(l, Repeat(stride, numKeys)) == Repeat(0, numKeys)
    ensures UniformStrides(numKeys, stride).stridePerKey == Repeat(stride, numKeys)
  {
    UniformLayout(numKeys, stride);
    SumRepeat(stride, numKeys);
    if numKeys > 0 && stride > 0 {
      DivExactSwap(numKeys, stride);
    }
    if stride == 0 {
      BlockSumsOfEmpty(Repeat(stride, numKeys));
    }
  }

  lemma DivExactSwap(k: int, s: int)
    requires k > 0 && s > 0
    ensures (s * k) / s == k && (s * k) % s == 0
  {
    DivExact(s, k);
  }

  lemma BlockSumsOfEmpty(spk: seq<int>)
    requires Partitions(spk, 0)
    ensures BlockSums([], spk) == Repeat(0, |spk|)
  {
    var b := Blocks<int>([], spk);
    var c := CompleteCumsum(spk);
    CumsumShape(spk);
    CumsumBounds(spk);
    forall k | 0 <= k < |spk|
      ensures b[k] == []
    {
      assert 0 <= c[k] <= c[k + 1] <= 0;
    }
  }

  /** A KJT with one key and no rows, described by the offsets `[0]` or by empty lengths. */
  lemma ZeroStrideLengthPerKeyCounterexample()
    ensures LengthPerKeyAsWritten(1, 0, [0], false, None, Some([0])).Failure?
    ensures LengthPerKeyAsWritten(1, 0, [0], false, Some([]), Some([0])).Failure?
    ensures LengthPerKeyAsWritten(1, 0, [0], false, Some([]), None) == Success([0])
    ensures LengthPerKey([], [0]) == [0]
  {
    BlockSumsOfEmpty([0]);
    assert Repeat(0, 1) == [0];
  }

  /** Python's `s[a:b]` for non-negative bounds: both ends clamp to the length. */
  function PySlice<T>(s: seq<T>, a: int, b: int): (r: seq<T>)
    requires 0 <= a && 0 <= b
    ensures b <= |s| && a <= b ==> r == s[a..b]
  {
    var lo := if a < |s| then a else |s|;
    var hi := if b < lo then lo else if b < |s| then b else |s|;
    s[lo..hi]
  }

  /** `_sum_by_splits`: the sum of each consecutive chunk of `input`, chunk sizes given by `splits`. */
  function SumBySplits(input: seq<int>, splits: seq<int>): (r: seq<int>)
    requires AllNonNeg(splits)
    ensures |r| == |splits|
  {
    CumsumSteps(splits);
    var starts := CompleteCumsum(splits);  // starts[i] is the sum of splits[..i]
    seq(|splits|, i requires 0 <= i < |splits| => Sum(PySlice(input, starts[i], starts[i] + splits[i])))
  }

  lemma SumBySplitsAt(input: seq<int>, splits: seq<int>, i: int)
    requires Partitions(splits, |input|) && 0 <= i < |splits|
    ensures SumBySplits(input, splits)[i] == BlockSums(input, splits)[i]
  {
    CumsumSteps(splits);
    var a := CompleteCumsum(splits)[i];
    assert PySlice(input, a, a + splits[i]) == input[a..a + splits[i]];
  }

  /** When the splits cover the input, `_sum_by_splits` is the block sum, so the chunk sums total the input's. */
  lemma SumBySplitsIsBlockSums(input: seq<int>, splits: seq<int>)
    requires Partitions(splits, |input|)
    ensures SumBySplits(input, splits) == BlockSums(input, splits)
    ensures Sum(SumBySplits(input, splits)) == Sum(input)
  {
    forall i | 0 <= i < |splits|
      ensures SumBySplits(input, splits)[i] == BlockSums(input, splits)[i]
    {
      SumBySplitsAt(input, splits, i);
    }
    BlockSumsTotal(input, splits);
  }
}
