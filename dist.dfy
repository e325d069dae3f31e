// The all-to-all contract of a KJT: what each rank sends (`dist_tensors`),
// how each of those tensors is cut across the destination ranks
// (`dist_splits`), and the data a receiving rank rebuilds its KJT from
// (`dist_init`), including the per-rank stride bookkeeping and the staggered
// rank order.
//
// A receiving rank gets, from each of `num_workers` ranks, one segment of
// rows per key, rank-major: segment `w * K + k` holds rank w's rows for key k.
// `recat` names the order the segments are laid out in afterwards.

module Dist {
  import opened Wrappers
  import opened Prefix
  import opened Segments
  import opened KjtSpec
  import opened KjtOps

  // ----- sending side -----

  /** `dist_tensors()`: lengths and values, the per-key strides in variable-stride mode, the weights when present. */
  function DistTensorsOf(c: Content): seq<seq<int>>
  {
    [c.lengths, c.values]
    + (if c.strides.variable then [c.strides.stridePerKey] else [])
    + (if c.weights.Some? then [c.weights.value] else [])
  }

  /**
   * `dist_splits(key_splits)`: for each group of `key_splits` keys, its row
   * count and its value count; then, in variable-stride mode, the key counts
   * themselves, and for the weights the value counts again.
   */
  function DistSplitsOf(c: Content, keySplits: seq<int>): seq<seq<int>>
    requires WellFormed(c) && AllNonNeg(keySplits)
  {
    var batchSizePerSplit := SumBySplits(c.strides.stridePerKey, keySplits);
    var lengthPerSplit := SumBySplits(KeyLengths(c), keySplits);
    [batchSizePerSplit, lengthPerSplit]
    + (if c.strides.variable then [keySplits] else [])
    + (if c.weights.Some? then [lengthPerSplit] else [])
  }

  /**
   * When `key_splits` cuts the keys, there is one split list per tensor and
   * each one cuts its tensor exactly: the groups' rows cover the lengths,
   * their values cover the values and the weights, their key counts cover
   * the per-key strides.
   */
  lemma DistSplitsCut(c: Content, keySplits: seq<int>)
    requires WellFormed(c) && Partitions(keySplits, |c.keys|)
    ensures |DistSplitsOf(c, keySplits)| == |DistTensorsOf(c)|
    ensures forall i :: 0 <= i < |DistTensorsOf(c)| ==> Partitions(DistSplitsOf(c, keySplits)[i], |DistTensorsOf(c)[i]|)
  {
    var spk, lpk := c.strides.stridePerKey, KeyLengths(c);
    SplitTotals(c, keySplits);
    var w := if c.weights.Some? then c.weights.value else c.values;
    PartitionsEach(DistSplitsOf(c, keySplits), DistTensorsOf(c),
      SumBySplits(spk, keySplits), SumBySplits(lpk, keySplits), keySplits,
      c.lengths, c.values, spk, w, c.strides.variable, c.weights.Some?);
  }

  /** Entry by entry, the split lists laid out as `dist_splits` lays them out partition the tensors laid out alike. */
  lemma PartitionsEach(splits: seq<seq<int>>, tensors: seq<seq<int>>, rows: seq<int>, vals: seq<int>, keySplits: seq<int>,
                       lengths: seq<int>, values: seq<int>, spk: seq<int>, weights: seq<int>, variable: bool, weighted: bool)
    requires splits == [rows, vals] + (if variable then [keySplits] else []) + (if weighted then [vals] else [])
    requires tensors == [lengths, values] + (if variable then [spk] else []) + (if weighted then [weights] else [])
    requires Partitions(rows, |lengths|) && Partitions(vals, |values|) && Partitions(keySplits, |spk|)
    requires |weights| == |values|
    ensures |splits| == |tensors|
    ensures forall i :: 0 <= i < |tensors| ==> Partitions(splits[i], |tensors[i]|)
  {
  }

  /** The groups' row counts cover the rows, their value counts the values, the key counts the keys. */
  lemma SplitTotals(c: Content, keySplits: seq<int>)
    requires WellFormed(c) && Partitions(keySplits, |c.keys|)
    ensures Partitions(SumBySplits(c.strides.stridePerKey, keySplits), |c.lengths|)
    ensures Partitions(SumBySplits(KeyLengths(c), keySplits), |c.values|)
    ensures Partitions(keySplits, |c.strides.stridePerKey|)
    ensures c.weights.Some? ==> |c.weights.value| == |c.values|
  {
    var spk, lpk := c.strides.stridePerKey, KeyLengths(c);
    SumBySplitsIsBlockSums(spk, keySplits);
    SumBySplitsIsBlockSums(lpk, keySplits);
    LengthPerKeyTotal(spk, keySplits);
    LengthPerKeyTotal(lpk, keySplits);
  }

  /** `dist_labels`: the names of the tensors `dist_tensors` sends, in the same order. */
  function DistLabelsOf(c: Content): seq<string>
  {
    ["lengths", "values"]
    + (if c.strides.variable then ["strides"] else [])
    + (if c.weights.Some? then ["weights"] else [])
  }

  /** One distinct label per sent tensor, each naming the tensor at its position. */
  lemma DistLabelsAligned(c: Content)
    ensures |DistLabelsOf(c)| == |DistTensorsOf(c)|
    ensures forall i :: 0 <= i < |DistLabelsOf(c)| ==> TensorNamed(c, DistLabelsOf(c)[i]) == Some(DistTensorsOf(c)[i])
    ensures forall i, j :: 0 <= i < j < |DistLabelsOf(c)| ==> DistLabelsOf(c)[i] != DistLabelsOf(c)[j]
  {
    var labels, tensors := DistLabelsOf(c), DistTensorsOf(c);
    if c.strides.variable && c.weights.Some? {
      assert labels == ["lengths", "values", "strides", "weights"];
      assert tensors == [c.lengths, c.values, c.strides.stridePerKey, c.weights.value];
    } else if c.strides.variable {
      assert labels == ["lengths", "values", "strides"];
      assert tensors == [c.lengths, c.values, c.strides.stridePerKey];
    } else if c.weights.Some? {
      assert labels == ["lengths", "values", "weights"];
      assert tensors == [c.lengths, c.values, c.weights.value];
    } else {
      assert labels == ["lengths", "values"];
    }
  }

  /** The tensor `dist_tensors` sends under a label of `dist_labels`, if `c` sends one under it. */
  function TensorNamed(c: Content, name: string): Option<seq<int>>
  {
    if name == "lengths" then Some(c.lengths)
    else if name == "values" then Some(c.values)
    else if name == "strides" && c.strides.variable then Some(c.strides.stridePerKey)
    else if name == "weights" then c.weights
    else None
  }

  // ----- integer layout -----

  /** Euclidean division is unique: `q * d + r` with `0 <= r < d` divides back into `q` and `r`. */
  lemma DivModOf(q: int, r: int, d: int)
    requires d > 0 && 0 <= r < d
    ensures (q * d + r) / d == q && (q * d + r) % d == r
  {
    var n := q * d + r;
    var q', r' := n / d, n % d;
    assert (q - q') * d == r' - r;
    if q - q' >= 1 {
      MulLe(1, q - q', d);
      assert false;
    } else if q - q' <= -1 {
      MulLe(1, q' - q, d);
      assert false;
    }
  }

  /** Entry `(i, j)` of a row-major `rows x cols` matrix lies inside it. */
  lemma RowMajorBound(i: int, j: int, rows: int, cols: int)
    requires 0 <= i < rows && 0 <= j < cols
    ensures 0 <= i * cols + j < rows * cols
  {
    MulLe(i + 1, rows, cols);
    MulLe(0, i, cols);
  }

  lemma {:induction false} MulLe(a: int, b: int, c: nat)
    requires a <= b
    ensures a * c <= b * c
  {
    if c > 0 {
      MulLe(a, b, c - 1);
      assert a * c == a * (c - 1) + a && b * c == b * (c - 1) + b;
    }
  }

  // ----- per-rank strides: the transposed view and the staggered rank order -----

  /**
   * `t.view(num_workers, num_keys).T.tolist()`: the rank-major list `t` read
   * as one list per key, holding that key's entry from every rank in rank order.
   */
  function RanksToKeys<T>(t: seq<T>, numWorkers: nat, numKeys: nat): (r: seq<seq<T>>)
    requires |t| == numWorkers * numKeys
    ensures |r| == numKeys && forall k :: 0 <= k < numKeys ==> |r[k]| == numWorkers
  {
    seq(numKeys, k requires 0 <= k < numKeys =>
      seq(numWorkers, w requires 0 <= w < numWorkers =>
        RowMajorBound(w, k, numWorkers, numKeys); t[w * numKeys + k]))
  }

  /** Python's `row[j::step]` for `j >= 0` and `step > 0`: every step-th entry from j on. */
  function StepSlice(row: seq<int>, j: nat, step: nat): seq<int>
    requires step > 0
    decreases |row| - j
  {
    if j >= |row| then [] else [row[j]] + StepSlice(row, j + step, step)
  }

  /** The inner loop of the stagger after `n` rounds: `row[0::step] + ... + row[n-1::step]`. */
  function StaggerPrefix(row: seq<int>, step: nat, n: nat): seq<int>
    requires n <= step
  {
    if n == 0 then [] else StaggerPrefix(row, step, n - 1) + StepSlice(row, n - 1, step)
  }

  /**
   * The per-rank strides of one key in staggered rank order: with
   * `local_world_size` ranks per node, first every node's rank 0, then every
   * node's rank 1, and so on.
   */
  function Staggered(row: seq<int>, localWorldSize: nat): seq<int>
  {
    StaggerPrefix(row, localWorldSize, localWorldSize)
  }

  /** `Staggered` applied to the per-rank strides of every key. */
  function StaggerEach(spkpr: seq<seq<int>>, localWorldSize: nat): (r: seq<seq<int>>)
    ensures |r| == |spkpr|
  {
    seq(|spkpr|, k requires 0 <= k < |spkpr| => Staggered(spkpr[k], localWorldSize))
  }

  lemma {:induction false} StepSliceAt(row: seq<int>, j: nat, step: nat, t: int)
    requires step > 0 && 0 <= t < |StepSlice(row, j, step)|
    ensures j + t * step < |row| && StepSlice(row, j, step)[t] == row[j + t * step]
    decreases |row| - j
  {
    if t > 0 {
      StepSliceAt(row, j + step, step, t - 1);
      assert (j + step) + (t - 1) * step == j + t * step;
    }
  }

  /** A slice from `j` by `step` holds n entries when the n-th step from j is the first past the end. */
  lemma {:induction false} StepSliceLength(row: seq<int>, j: nat, step: nat, n: nat)
    requires step > 0 && n > 0 && j + (n - 1) * step < |row| <= j + n * step
    ensures |StepSlice(row, j, step)| == n
    decreases n
  {
    if n > 1 {
      assert (j + step) + (n - 2) * step == j + (n - 1) * step;
      assert (j + step) + (n - 1) * step == j + n * step;
      MulLe(1, n - 1, step);
      StepSliceLength(row, j + step, step, n - 1);
    } else {
      assert StepSlice(row, j + step, step) == [];
    }
  }

  /** On a row of `step * s` entries every slice from a start below `step` holds s entries. */
  lemma SquareStepSlice(row: seq<int>, j: nat, step: nat, s: nat)
    requires 0 <= j < step && |row| == step * s
    ensures |StepSlice(row, j, step)| == s
  {
    if s == 0 {
      assert StepSlice(row, j, step) == [];
    } else {
      MulLe(j + 1, step, s - 1);
      assert (j + 1) * (s - 1) == j * (s - 1) + s - 1;
      assert j + (s - 1) * step < step * s by {
        assert step * s == step * (s - 1) + step;
      }
      assert step * s <= j + s * step;
      StepSliceLength(row, j, step, s);
    }
  }

  /**
   * On a row of `step * s` entries, the first n slices of the stagger are the
   * first n columns of the row read as an `s x step` matrix: entry `j * s + t`
   * is the row's entry `j + t * step`.
   */
  lemma {:induction false} StaggerPrefixAt(row: seq<int>, step: nat, s: nat, n: nat)
    requires n <= step && |row| == step * s
    ensures |StaggerPrefix(row, step, n)| == n * s
    ensures forall i :: 0 <= i < n * s ==>
      0 <= i / s + (i % s) * step < |row| && StaggerPrefix(row, step, n)[i] == row[i / s + (i % s) * step]
  {
    if n > 0 {
      var p := StaggerPrefix(row, step, n - 1);
      var last := StepSlice(row, n - 1, step);
      StaggerPrefixAt(row, step, s, n - 1);
      SquareStepSlice(row, n - 1, step, s);
      var base := (n - 1) * s;
      assert n * s == base + s;
      assert StaggerPrefix(row, step, n) == p + last;
      forall i | 0 <= i < n * s
        ensures 0 <= i / s + (i % s) * step < |row| && StaggerPrefix(row, step, n)[i] == row[i / s + (i % s) * step]
      {
        if base <= i {
          LastSliceAt(row, step, s, n, i);
        }
      }
    }
  }

  /** An index into the n-th slice of the stagger, as a column and a row of the `s x step` matrix. */
  lemma LastSliceAt(row: seq<int>, step: nat, s: nat, n: nat, i: int)
    requires 0 < n <= step && |row| == step * s && (n - 1) * s <= i < n * s
    requires |StepSlice(row, n - 1, step)| == s
    ensures 0 <= i / s + (i % s) * step < |row|
    ensures StepSlice(row, n - 1, step)[i - (n - 1) * s] == row[i / s + (i % s) * step]
  {
    var t := i - (n - 1) * s;
    assert 0 <= t < s by {
      assert n * s == (n - 1) * s + s;
    }
    DivModOf(n - 1, t, s);
    StepSliceAt(row, n - 1, step, t);
    RowMajorBound(t, n - 1, s, step);
  }

  /**
   * With `num_workers == local_world_size * num_nodes`, the staggered order
   * keeps every entry: position `j * num_nodes + t` holds node t's rank j,
   * which is position `j + t * local_world_size` of the rank-ordered list.
   */
  lemma StaggeredAt(row: seq<int>, localWorldSize: nat, numNodes: nat)
    requires localWorldSize > 0 && |row| == localWorldSize * numNodes
    ensures |Staggered(row, localWorldSize)| == |row|
    ensures forall i :: 0 <= i < |row| ==>
      0 <= i / numNodes + (i % numNodes) * localWorldSize < |row|
      && Staggered(row, localWorldSize)[i] == row[i / numNodes + (i % numNodes) * localWorldSize]
  {
    StaggerPrefixAt(row, localWorldSize, numNodes, localWorldSize);
  }

  /**
   * Staggering by the local world size and then by the node count gives the
   * rank order back: the stagger is a transposition, and so a permutation of
   * the ranks.
   */
  lemma StaggeredRoundTrip(row: seq<int>, localWorldSize: nat, numNodes: nat)
    requires localWorldSize > 0 && numNodes > 0 && |row| == localWorldSize * numNodes
    ensures Staggered(Staggered(row, localWorldSize), numNodes) == row
  {
    var x := Staggered(row, localWorldSize);
    StaggeredAt(row, localWorldSize, numNodes);
    StaggeredAt(x, numNodes, localWorldSize);
    var y := Staggered(x, numNodes);
    forall i | 0 <= i < |row|
      ensures y[i] == row[i]
    {
      TransposeBack(i, localWorldSize, numNodes);
    }
  }

  /** Position i of an `n x l` matrix, transposed and transposed back. */
  lemma TransposeBack(i: int, l: int, n: int)
    requires l > 0 && n > 0 && 0 <= i < l * n
    ensures var j := i / l + (i % l) * n; j / n + (j % n) * l == i
  {
    var a, b := i / l, i % l;
    if a >= n {
      MulLe(n, a, l);
      assert false;
    }
    DivModOf(b, a, n);
    assert i == a * l + b;
  }

  // ----- receiving side -----

  const ViewMessage: string := "shape '[num_workers, num_keys]' is invalid for input"
  const ReshapeMessage: string := "shape '[-1, stride]' is invalid for input"

  /** `recat is not None and recat.numel() > 0` */
  predicate Recats(recat: Option<seq<int>>)
  {
    recat.Some? && recat.value != []
  }

  /** What every all-to-all delivers: non-negative lengths covering the values, weights parallel to the values. */
  predicate Arrived(lengths: seq<int>, values: seq<int>, weights: Option<seq<int>>)
  {
    && AllNonNeg(lengths) && Sum(lengths) == |values|
    && (weights.Some? ==> |weights.value| == |values|)
  }

  /** The segments of the variable-stride lengths: one per rank and key, rank-major, covering the rows; recat names segments. */
  predicate VariableSegmentsOk(numKeys: nat, lengths: seq<int>, sprpk: seq<int>, numWorkers: nat, recat: Option<seq<int>>)
  {
    |sprpk| == numWorkers * numKeys ==>
      Partitions(sprpk, |lengths|) && (Recats(recat) ==> InRange(recat.value, |sprpk|))
  }

  /**
   * Variable stride per key, the buffers: the per-segment value counts are
   * the row sums of each segment, and a non-empty recat reorders the row
   * segments and their value segments alike.
   */
  function VariableBuffers(lengths: seq<int>, values: seq<int>, weights: Option<seq<int>>,
                           sprpk: seq<int>, recat: Option<seq<int>>): (seq<int>, seq<int>, Option<seq<int>>)
    requires Arrived(lengths, values, weights) && Partitions(sprpk, |lengths|)
    requires Recats(recat) ==> InRange(recat.value, |sprpk|)
  {
    if !Recats(recat) then (lengths, values, weights)
    else
      LengthPerKeyTotal(lengths, sprpk);
      var lps := LengthPerKey(lengths, sprpk);
      var w := if weights.Some? then Some(Gather(weights.value, lps, recat.value)) else None;
      (Gather(lengths, sprpk, recat.value), Gather(values, lps, recat.value), w)
  }

  /**
   * Variable stride per key, the per-key strides: the per-rank strides
   * transposed into one list per key; an empty list becomes one zero per key,
   * and with `stagger > 1` each key's list takes the staggered rank order.
   */
  function VariableRanks(numKeys: nat, sprpk: seq<int>, numWorkers: nat, stagger: int): seq<seq<int>>
    requires |sprpk| == numWorkers * numKeys
  {
    var spkpr := RanksToKeys(sprpk, numWorkers, numKeys);
    var padded := if spkpr == [] then Repeat([0], numKeys) else spkpr;
    if stagger > 1 then StaggerEach(padded, LocalWorldSize(numWorkers, stagger)) else padded
  }

  /** The ranks per node, `num_workers // stagger`. */
  function LocalWorldSize(numWorkers: nat, stagger: int): nat
    requires stagger > 0
  {
    numWorkers / stagger
  }

  /** Variable stride per key: the segments are one per rank and key, which the view checks first. */
  function VariableArrival(keys: seq<string>, lengths: seq<int>, values: seq<int>, weights: Option<seq<int>>,
                           sprpk: seq<int>, numWorkers: nat, recat: Option<seq<int>>, stagger: int): Result<Content, Error>
    requires Arrived(lengths, values, weights)
    requires VariableSegmentsOk(|keys|, lengths, sprpk, numWorkers, recat)
  {
    if |sprpk| != numWorkers * |keys| then Failure(RuntimeError(ViewMessage))
    else
      var (l, v, w) := VariableBuffers(lengths, values, weights, sprpk, recat);
      Success(Content(keys, v, w, l, VariableStrides(VariableRanks(|keys|, sprpk, numWorkers, stagger))))
  }

  /** Every rank sent the same batch size. */
  predicate SameStride(stridePerRank: seq<int>)
    requires stridePerRank != []
  {
    forall r :: 0 <= r < |stridePerRank| ==> stridePerRank[r] == stridePerRank[0]
  }

  /** A recat names rows of the `(-1, stride)` view when every rank sent the same batch size, else single rows. */
  predicate UniformRecatOk(lengths: seq<int>, stridePerRank: seq<int>, recat: Option<seq<int>>)
  {
    Recats(recat) && stridePerRank != [] ==>
      if SameStride(stridePerRank) then
        var stride := stridePerRank[0];
        stride > 0 && |lengths| % stride == 0 ==> InRange(recat.value, |lengths| / stride)
      else InRange(recat.value, |lengths|)
  }

  /**
   * Uniform stride, the buffers: with a non-empty recat, when every rank sent
   * the same batch size the lengths are viewed as rows of that many entries
   * and whole rows are reordered (`permute_2D_sparse_data`), else single
   * lengths are (`permute_1D_sparse_data`); values and weights follow their
   * rows. No `stride_per_rank` entry to read raises IndexError, a batch size
   * the view cannot use raises RuntimeError.
   */
  function UniformBuffers(lengths: seq<int>, values: seq<int>, weights: Option<seq<int>>,
                          stridePerRank: seq<int>, recat: Option<seq<int>>): Result<(seq<int>, seq<int>, Option<seq<int>>), Error>
    requires Arrived(lengths, values, weights)
    requires UniformRecatOk(lengths, stridePerRank, recat)
  {
    if !Recats(recat) then Success((lengths, values, weights))
    else if stridePerRank == [] then Failure(IndexError)
    else if SameStride(stridePerRank) then
      var stride := stridePerRank[0];
      if stride > 0 && |lengths| % stride == 0 then
        var rows := Repeat(stride, |lengths| / stride);
        assert Partitions(rows, |lengths|) by {
          SumRepeat(stride, |lengths| / stride);
        }
        LengthPerKeyTotal(lengths, rows);
        var rowValues := LengthPerKey(lengths, rows);
        var w := if weights.Some? then Some(Gather(weights.value, rowValues, recat.value)) else None;
        Success((Gather(lengths, rows, recat.value), Gather(values, rowValues, recat.value), w))
      else Failure(RuntimeError(ReshapeMessage))
    else
      var w := if weights.Some? then Some(Gather(weights.value, lengths, recat.value)) else None;
      Success((Pick(lengths, recat.value), Gather(values, lengths, recat.value), w))
  }

  /** Uniform stride: the buffers above, and the total batch size over the ranks as the stride. */
  function UniformArrival(keys: seq<string>, lengths: seq<int>, values: seq<int>, weights: Option<seq<int>>,
                          stridePerRank: seq<int>, recat: Option<seq<int>>): Result<Content, Error>
    requires Arrived(lengths, values, weights)
    requires UniformRecatOk(lengths, stridePerRank, recat)
  {
    var b := UniformBuffers(lengths, values, weights, stridePerRank, recat);
    if b.Failure? then Failure(b.error)
    else
      var (l, v, w) := b.value;
      Success(Content(keys, v, w, l, UniformStrides(|keys|, Sum(stridePerRank))))
  }

  /** The weights among the received tensors: the last one, when there is one more than lengths, values and strides. */
  function ArrivedWeights(tensors: seq<seq<int>>, variable: bool): Option<seq<int>>
    requires |tensors| >= 2
  {
    if (variable && |tensors| == 4) || (!variable && |tensors| == 3) then Some(tensors[|tensors| - 1]) else None
  }

  /** The received tensors are what `dist_init` expects of an all-to-all. */
  predicate DistArrived(numKeys: nat, tensors: seq<seq<int>>, variable: bool, numWorkers: nat,
                        recat: Option<seq<int>>, stridePerRank: Option<seq<int>>)
  {
    2 <= |tensors| <= 4 ==>
      && Arrived(tensors[0], tensors[1], ArrivedWeights(tensors, variable))
      && (variable && |tensors| >= 3 ==> VariableSegmentsOk(numKeys, tensors[0], tensors[2], numWorkers, recat))
      && (!variable && stridePerRank.Some? ==> UniformRecatOk(tensors[0], stridePerRank.value, recat))
  }

  /**
   * `dist_init`: the data of the KJT it builds (before `sync`), or the error
   * it raises: AssertionError unless there are 2 to 4 tensors, IndexError
   * for variable stride without a stride tensor, AssertionError for uniform
   * stride without `stride_per_rank`.
   */
  function DistInitContent(keys: seq<string>, tensors: seq<seq<int>>, variable: bool, numWorkers: nat,
                           recat: Option<seq<int>>, stridePerRank: Option<seq<int>>, stagger: int): Result<Content, Error>
    requires DistArrived(|keys|, tensors, variable, numWorkers, recat, stridePerRank)
  {
    if |tensors| < 2 || |tensors| > 4 then Failure(AssertionError(""))
    else
      var weights := ArrivedWeights(tensors, variable);
      if variable then
        if |tensors| == 2 then Failure(IndexError)
        else VariableArrival(keys, tensors[0], tensors[1], weights, tensors[2], numWorkers, recat, stagger)
      else if stridePerRank.None? then Failure(AssertionError(""))
      else UniformArrival(keys, tensors[0], tensors[1], weights, stridePerRank.value, recat)
  }

  /**
   * One worker, no recat: `dist_init` rebuilds exactly the KJT whose
   * `dist_tensors` it receives, in uniform mode when that KJT's stride is the
   * only rank's batch size, in variable mode when each key's strides come
   * from a single rank.
   */
  lemma {:induction false} DistRoundTrip(c: Content)
    requires WellFormed(c)
    requires c.strides.variable ==> forall k :: 0 <= k < |c.keys| ==> |c.strides.stridePerKeyPerRank[k]| == 1
    ensures DistArrived(|c.keys|, DistTensorsOf(c), c.strides.variable, 1, None, Some([c.strides.stride]))
    ensures DistInitContent(c.keys, DistTensorsOf(c), c.strides.variable, 1, None, Some([c.strides.stride]), 1) == Success(c)
  {
    var s := c.strides;
    if s.variable {
      var ranks := VariableRanks(|c.keys|, s.stridePerKey, 1, 1);
      forall k | 0 <= k < |c.keys|
        ensures ranks[k] == s.stridePerKeyPerRank[k]
      {
        var row := s.stridePerKeyPerRank[k];
        assert row == [row[0]];
        assert Sum(row) == row[0] by {
          assert row[..0] == [];
        }
      }
      assert ranks == s.stridePerKeyPerRank;
    } else {
      assert Sum([s.stride]) == s.stride by {
        assert [s.stride][..0] == [];
      }
    }
  }

  // ----- regrouping by key -----

  lemma SplitIndex(i: int, rows: int, cols: int)
    requires cols > 0 && 0 <= i < rows * cols
    ensures 0 <= i / cols < rows && 0 <= i % cols < cols
  {
    if i / cols >= rows {
      MulLe(rows, i / cols, cols);
      assert false;
    }
  }

  /**
   * The recat that regroups rank-major segments by key: output position
   * `k * num_workers + w` takes segment `w * num_keys + k`, rank w's segment
   * of key k.
   */
  function KeyMajorRecat(numWorkers: nat, numKeys: nat): (r: seq<int>)
    requires numWorkers > 0
    ensures |r| == numKeys * numWorkers
  {
    seq(numKeys * numWorkers, i requires 0 <= i < numKeys * numWorkers =>
      (i % numWorkers) * numKeys + i / numWorkers)
  }

  lemma KeyMajorRecatInRange(numWorkers: nat, numKeys: nat)
    requires numWorkers > 0
    ensures InRange(KeyMajorRecat(numWorkers, numKeys), numWorkers * numKeys)
  {
    var r := KeyMajorRecat(numWorkers, numKeys);
    forall i | 0 <= i < |r|
      ensures 0 <= r[i] < numWorkers * numKeys
    {
      SplitIndex(i, numKeys, numWorkers);
      RowMajorBound(i % numWorkers, i / numWorkers, numWorkers, numKeys);
    }
  }

  /** Rank-major pieces regrouped by key: piece k joins every rank's piece of key k, in rank order. */
  function GroupByKey<T>(pieces: seq<seq<T>>, numWorkers: nat, numKeys: nat): (r: seq<seq<T>>)
    requires |pieces| == numWorkers * numKeys
    ensures |r| == numKeys
  {
    var perKey := RanksToKeys(pieces, numWorkers, numKeys);
    seq(numKeys, k requires 0 <= k < numKeys => Flatten(perKey[k]))
  }

  /** Pieces of equal size n: entry i of their concatenation is entry `i % n` of piece `i / n`. */
  lemma {:induction false} FlattenUniformAt<T>(pieces: seq<seq<T>>, n: nat)
    requires n > 0 && forall k :: 0 <= k < |pieces| ==> |pieces[k]| == n
    ensures |Flatten(pieces)| == |pieces| * n
    ensures forall i :: 0 <= i < |pieces| * n ==>
      0 <= i / n < |pieces| && 0 <= i % n < n && Flatten(pieces)[i] == pieces[i / n][i % n]
  {
    if pieces != [] {
      var m := |pieces|;
      var init := pieces[..m - 1];
      FlattenUniformAt(init, n);
      var base := (m - 1) * n;
      assert m * n == base + n;
      assert Flatten(pieces) == Flatten(init) + pieces[m - 1];
      forall i | 0 <= i < m * n
        ensures 0 <= i / n < m && 0 <= i % n < n && Flatten(pieces)[i] == pieces[i / n][i % n]
      {
        if i < base {
          assert init[i / n] == pieces[i / n];
        } else {
          DivModOf(m - 1, i - base, n);
        }
      }
    }
  }

  /** Picking by the key-major recat lists each key's entries from every rank, key after key. */
  lemma KeyMajorPick<T>(b: seq<T>, numWorkers: nat, numKeys: nat)
    requires numWorkers > 0 && |b| == numWorkers * numKeys
    ensures InRange(KeyMajorRecat(numWorkers, numKeys), |b|)
    ensures Pick(b, KeyMajorRecat(numWorkers, numKeys)) == Flatten(RanksToKeys(b, numWorkers, numKeys))
  {
    var perKey := RanksToKeys(b, numWorkers, numKeys);
    KeyMajorRecatInRange(numWorkers, numKeys);
    FlattenUniformAt(perKey, numWorkers);
  }

  /**
   * Gathering rank-major segments by the key-major recat puts, for every key,
   * all ranks' segments of that key together: the gathered buffer splits,
   * by the per-key totals, into exactly the regrouped segments.
   */
  lemma GatherKeyMajor<T>(s: seq<T>, sizes: seq<int>, numWorkers: nat, numKeys: nat)
    requires numWorkers > 0 && Partitions(sizes, |s|) && |sizes| == numWorkers * numKeys
    ensures InRange(KeyMajorRecat(numWorkers, numKeys), |sizes|)
    ensures Partitions(PerKeySums(RanksToKeys(sizes, numWorkers, numKeys)), |Gather(s, sizes, KeyMajorRecat(numWorkers, numKeys))|)
    ensures Blocks(Gather(s, sizes, KeyMajorRecat(numWorkers, numKeys)), PerKeySums(RanksToKeys(sizes, numWorkers, numKeys)))
            == GroupByKey(Blocks(s, sizes), numWorkers, numKeys)
  {
    var b := Blocks(s, sizes);
    var perKey := RanksToKeys(b, numWorkers, numKeys);
    var grouped := GroupByKey(b, numWorkers, numKeys);
    KeyMajorRecatInRange(numWorkers, numKeys);
    KeyMajorPick(b, numWorkers, numKeys);
    FlattenFlatten(perKey);
    assert Gather(s, sizes, KeyMajorRecat(numWorkers, numKeys)) == Flatten(grouped);
    forall k | 0 <= k < numKeys
      ensures Sizes(grouped)[k] == PerKeySums(RanksToKeys(sizes, numWorkers, numKeys))[k]
    {
      FlattenSizes(perKey[k]);
      forall w | 0 <= w < numWorkers
        ensures Sizes(perKey[k])[w] == RanksToKeys(sizes, numWorkers, numKeys)[k][w]
      {
        RowMajorBound(w, k, numWorkers, numKeys);
        assert perKey[k][w] == b[w * numKeys + k];
      }
      assert Sizes(perKey[k]) == RanksToKeys(sizes, numWorkers, numKeys)[k];
    }
    assert Sizes(grouped) == PerKeySums(RanksToKeys(sizes, numWorkers, numKeys));
    BlocksOfFlatten(grouped);
  }

  /** The key-major gather sums, per key, the segment sums of every rank. */
  lemma GatherKeyMajorSums(s: seq<int>, sizes: seq<int>, numWorkers: nat, numKeys: nat)
    requires numWorkers > 0 && Partitions(sizes, |s|) && |sizes| == numWorkers * numKeys
    ensures InRange(KeyMajorRecat(numWorkers, numKeys), |sizes|)
    ensures Partitions(PerKeySums(RanksToKeys(sizes, numWorkers, numKeys)), |Gather(s, sizes, KeyMajorRecat(numWorkers, numKeys))|)
    ensures BlockSums(Gather(s, sizes, KeyMajorRecat(numWorkers, numKeys)), PerKeySums(RanksToKeys(sizes, numWorkers, numKeys)))
            == PerKeySums(RanksToKeys(BlockSums(s, sizes), numWorkers, numKeys))
  {
    GatherKeyMajor(s, sizes, numWorkers, numKeys);
    var b := Blocks(s, sizes);
    var perKey := RanksToKeys(b, numWorkers, numKeys);
    var sums := RanksToKeys(BlockSums(s, sizes), numWorkers, numKeys);
    forall k | 0 <= k < numKeys
      ensures Sum(Flatten(perKey[k])) == Sum(sums[k])
    {
      SumFlatten(perKey[k]);
      forall w | 0 <= w < numWorkers
        ensures Sum(perKey[k][w]) == sums[k][w]
      {
        RowMajorBound(w, k, numWorkers, numKeys);
      }
      assert seq(numWorkers, w requires 0 <= w < numWorkers => Sum(perKey[k][w])) == sums[k];
    }
  }

  /** The per-key strides of a transposed list of non-negative per-rank strides are non-negative. */
  lemma RanksToKeysNonNeg(sprpk: seq<int>, numWorkers: nat, numKeys: nat)
    requires |sprpk| == numWorkers * numKeys && AllNonNeg(sprpk)
    ensures AllNonNeg(PerKeySums(RanksToKeys(sprpk, numWorkers, numKeys)))
  {
    var spkpr := RanksToKeys(sprpk, numWorkers, numKeys);
    forall k | 0 <= k < numKeys
      ensures Sum(spkpr[k]) >= 0
    {
      forall w | 0 <= w < numWorkers
        ensures spkpr[k][w] >= 0
      {
        RowMajorBound(w, k, numWorkers, numKeys);
      }
      SumNonNeg(spkpr[k]);
    }
  }

  /**
   * A gather keeps lengths non-negative and covering the gathered values:
   * the buffers `dist_init` builds with any recat still fit together.
   */
  lemma GatherArrived(lengths: seq<int>, values: seq<int>, weights: Option<seq<int>>, sizes: seq<int>, idx: seq<int>)
    requires Arrived(lengths, values, weights) && Partitions(sizes, |lengths|) && InRange(idx, |sizes|)
    ensures Partitions(LengthPerKey(lengths, sizes), |values|)
    ensures var lps := LengthPerKey(lengths, sizes);
      Arrived(Gather(lengths, sizes, idx), Gather(values, lps, idx),
              if weights.Some? then Some(Gather(weights.value, lps, idx)) else None)
  {
    LengthPerKeyTotal(lengths, sizes);
    var lps := LengthPerKey(lengths, sizes);
    GatherNonNeg(lengths, sizes, idx);
    GatherBlocks(values, lps, idx);
    if weights.Some? {
      GatherBlocks(weights.value, lps, idx);
    }
  }

  /**
   * Key k of `c` holds every rank's segment of key k, in rank order, in its
   * rows, in its values and in its weights; `rowSizes` and `valueSizes` cut
   * the received buffers into rank-major segments.
   */
  predicate RegroupedByKey(c: Content, lengths: seq<int>, values: seq<int>, weights: Option<seq<int>>,
                           rowSizes: seq<int>, valueSizes: seq<int>, numWorkers: nat)
    requires WellFormed(c) && Partitions(rowSizes, |lengths|) && Partitions(valueSizes, |values|)
    requires |rowSizes| == |valueSizes| == numWorkers * |c.keys|
    requires weights.Some? ==> |weights.value| == |values|
  {
    && Blocks(c.lengths, c.strides.stridePerKey) == GroupByKey(Blocks(lengths, rowSizes), numWorkers, |c.keys|)
    && Blocks(c.values, KeyLengths(c)) == GroupByKey(Blocks(values, valueSizes), numWorkers, |c.keys|)
    && c.weights.Some? == weights.Some?
    && (weights.Some? ==> Blocks(c.weights.value, KeyLengths(c)) == GroupByKey(Blocks(weights.value, valueSizes), numWorkers, |c.keys|))
  }

  /**
   * Buffers gathered by the key-major recat, with the per-key row counts of
   * the transposed segment sizes, form a well-formed KJT in which every key
   * holds all ranks' segments of that key.
   */
  lemma KeyMajorContent(c: Content, lengths: seq<int>, values: seq<int>, weights: Option<seq<int>>,
                        rows: seq<int>, numWorkers: nat)
    requires numWorkers > 0 && Arrived(lengths, values, weights)
    requires Partitions(rows, |lengths|) && |rows| == numWorkers * |c.keys|
    requires InRange(KeyMajorRecat(numWorkers, |c.keys|), |rows|)
    requires Partitions(LengthPerKey(lengths, rows), |values|)
    requires StridesValid(|c.keys|, c.strides) && c.strides.stridePerKey == PerKeySums(RanksToKeys(rows, numWorkers, |c.keys|))
    requires c.lengths == Gather(lengths, rows, KeyMajorRecat(numWorkers, |c.keys|))
    requires c.values == Gather(values, LengthPerKey(lengths, rows), KeyMajorRecat(numWorkers, |c.keys|))
    requires c.weights == if weights.Some? then Some(Gather(weights.value, LengthPerKey(lengths, rows), KeyMajorRecat(numWorkers, |c.keys|))) else None
    ensures WellFormed(c) && RegroupedByKey(c, lengths, values, weights, rows, LengthPerKey(lengths, rows), numWorkers)
  {
    var numKeys := |c.keys|;
    var recat := KeyMajorRecat(numWorkers, numKeys);
    var lps := LengthPerKey(lengths, rows);
    GatherKeyMajorSums(lengths, rows, numWorkers, numKeys);
    GatherArrived(lengths, values, weights, rows, recat);
    assert WellFormed(c);
    GatherKeyMajor(lengths, rows, numWorkers, numKeys);
    assert KeyLengths(c) == PerKeySums(RanksToKeys(lps, numWorkers, numKeys));
    GatherKeyMajor(values, lps, numWorkers, numKeys);
    if weights.Some? {
      GatherKeyMajor(weights.value, lps, numWorkers, numKeys);
    }
  }

  /**
   * Variable stride per key, segments regrouped by the key-major recat, no
   * stagger: the received KJT is well formed, each key's per-rank strides
   * are that key's entries of the per-rank strides, and each key holds every
   * rank's rows, values and weights of that key, in rank order.
   */
  lemma VariableArrivalByKey(keys: seq<string>, lengths: seq<int>, values: seq<int>, weights: Option<seq<int>>,
                             sprpk: seq<int>, numWorkers: nat)
    requires numWorkers > 0 && |keys| > 0 && |sprpk| == numWorkers * |keys| && Partitions(sprpk, |lengths|)
    requires Arrived(lengths, values, weights)
    ensures VariableSegmentsOk(|keys|, lengths, sprpk, numWorkers, Some(KeyMajorRecat(numWorkers, |keys|)))
    ensures Partitions(LengthPerKey(lengths, sprpk), |values|)
    ensures var r := VariableArrival(keys, lengths, values, weights, sprpk, numWorkers, Some(KeyMajorRecat(numWorkers, |keys|)), 1);
      && r.Success? && WellFormed(r.value)
      && r.value.strides.stridePerKeyPerRank == RanksToKeys(sprpk, numWorkers, |keys|)
      && RegroupedByKey(r.value, lengths, values, weights, sprpk, LengthPerKey(lengths, sprpk), numWorkers)
  {
    var numKeys := |keys|;
    var recat := KeyMajorRecat(numWorkers, numKeys);
    MulLe(1, numWorkers, numKeys);
    assert Recats(Some(recat));
    KeyMajorRecatInRange(numWorkers, numKeys);
    LengthPerKeyTotal(lengths, sprpk);
    RanksToKeysNonNeg(sprpk, numWorkers, numKeys);
    var r := VariableArrival(keys, lengths, values, weights, sprpk, numWorkers, Some(recat), 1);
    assert r.value.strides == VariableStrides(RanksToKeys(sprpk, numWorkers, numKeys));
    KeyMajorContent(r.value, lengths, values, weights, sprpk, numWorkers);
  }

  /** Equal segment sizes, transposed and summed per key, give every key the total of its ranks. */
  lemma RanksToKeysOfRepeat(stride: int, numWorkers: nat, numKeys: nat)
    ensures PerKeySums(RanksToKeys(Repeat(stride, numWorkers * numKeys), numWorkers, numKeys)) == Repeat(numWorkers * stride, numKeys)
  {
    var spkpr := RanksToKeys(Repeat(stride, numWorkers * numKeys), numWorkers, numKeys);
    forall k | 0 <= k < numKeys
      ensures Sum(spkpr[k]) == numWorkers * stride
    {
      forall w | 0 <= w < numWorkers
        ensures spkpr[k][w] == stride
      {
        RowMajorBound(w, k, numWorkers, numKeys);
      }
      assert spkpr[k] == Repeat(stride, numWorkers);
      SumRepeat(stride, numWorkers);
    }
  }

  /** The 2D branch of the uniform arrival when every rank sent `stride` rows per key. */
  lemma UniformArrivalIs(keys: seq<string>, lengths: seq<int>, values: seq<int>, weights: Option<seq<int>>,
                         stride: int, numWorkers: nat, recat: seq<int>)
    requires numWorkers > 0 && stride > 0 && |lengths| == stride * (numWorkers * |keys|) && recat != []
    requires Arrived(lengths, values, weights) && InRange(recat, numWorkers * |keys|)
    ensures Partitions(Repeat(stride, numWorkers * |keys|), |lengths|)
    ensures Partitions(LengthPerKey(lengths, Repeat(stride, numWorkers * |keys|)), |values|)
    ensures UniformRecatOk(lengths, Repeat(stride, numWorkers), Some(recat))
    ensures var rows := Repeat(stride, numWorkers * |keys|);
      var lps := LengthPerKey(lengths, rows);
      UniformArrival(keys, lengths, values, weights, Repeat(stride, numWorkers), Some(recat))
      == Success(Content(keys, Gather(values, lps, recat),
                         if weights.Some? then Some(Gather(weights.value, lps, recat)) else None,
                         Gather(lengths, rows, recat), UniformStrides(|keys|, numWorkers * stride)))
  {
    var segments := numWorkers * |keys|;
    DivExact(stride, segments);
    SumRepeat(stride, segments);
    SumRepeat(stride, numWorkers);
    assert Sum(Repeat(stride, numWorkers)) == numWorkers * stride;
    LengthPerKeyTotal(lengths, Repeat(stride, segments));
  }

  /**
   * Uniform stride, every one of `num_workers` ranks sending `stride` rows
   * per key, rows regrouped by the key-major recat: the received KJT is well
   * formed, its stride is the total batch size, and each key holds every
   * rank's rows, values and weights of that key, in rank order.
   */
  lemma UniformArrivalByKey(keys: seq<string>, lengths: seq<int>, values: seq<int>, weights: Option<seq<int>>,
                            stride: int, numWorkers: nat)
    requires numWorkers > 0 && |keys| > 0 && stride > 0 && |lengths| == stride * (numWorkers * |keys|)
    requires Arrived(lengths, values, weights)
    ensures UniformRecatOk(lengths, Repeat(stride, numWorkers), Some(KeyMajorRecat(numWorkers, |keys|)))
    ensures Partitions(Repeat(stride, numWorkers * |keys|), |lengths|)
    ensures Partitions(LengthPerKey(lengths, Repeat(stride, numWorkers * |keys|)), |values|)
    ensures var r := UniformArrival(keys, lengths, values, weights, Repeat(stride, numWorkers), Some(KeyMajorRecat(numWorkers, |keys|)));
      && r.Success? && WellFormed(r.value)
      && r.value.strides == UniformStrides(|keys|, numWorkers * stride)
      && RegroupedByKey(r.value, lengths, values, weights, Repeat(stride, numWorkers * |keys|),
                        LengthPerKey(lengths, Repeat(stride, numWorkers * |keys|)), numWorkers)
  {
    var numKeys := |keys|;
    var rows := Repeat(stride, numWorkers * numKeys);
    var recat := KeyMajorRecat(numWorkers, numKeys);
    MulLe(1, numWorkers, numKeys);
    MulLe(0, numWorkers, stride);
    var total := numWorkers * stride;
    KeyMajorRecatInRange(numWorkers, numKeys);
    UniformArrivalIs(keys, lengths, values, weights, stride, numWorkers, recat);
    var lps := LengthPerKey(lengths, rows);
    var c := Content(keys, Gather(values, lps, recat),
                     if weights.Some? then Some(Gather(weights.value, lps, recat)) else None,
                     Gather(lengths, rows, recat), UniformStrides(numKeys, total));
    RanksToKeysOfRepeat(stride, numWorkers, numKeys);
    UniformLayout(numKeys, total);
    UniformStridesValid(numKeys, total);
    KeyMajorContent(c, lengths, values, weights, rows, numWorkers);
  }
}
