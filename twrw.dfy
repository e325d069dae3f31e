// Index arithmetic of table-wise/row-wise (TWRW) sharding.
//
// A TWRW table lives on one node (`local_size` consecutive ranks) and is
// split row-wise over the node's ranks. The input distribution bucketizes
// every feature into `local_size` buckets of `ceil(hash_size / local_size)`
// ids, and reorders the bucketized KJT with the staggered shuffle so that each
// node's features form one contiguous run, bucket by bucket, before the
// all-to-all. The output distribution regroups per-rank batch sizes by local
// rank, and `_shard` places every table's shards on the ranks of its node.

module Twrw {
  import opened Wrappers
  import opened Prefix
  import opened Segments
  import opened KjtSpec
  import opened KjtOps
  import Dist

  // ------------------------------------------------------------ arithmetic

  lemma {:induction false} MulNonNeg(a: nat, t: int)
    requires t >= 0
    ensures a * t >= 0
  {
    if a > 0 {
      MulNonNeg(a - 1, t);
      assert a * t == (a - 1) * t + t;
    }
  }

  lemma MulStrict(b: int, n: int, t: int)
    requires b < n && t >= 0
    ensures b * t + t <= n * t
  {
    Dist.MulLe(b + 1, n, t);
    assert (b + 1) * t == b * t + t;
  }

  lemma QuotientUnique(q: int, m: int, b: int, f: int, t: int)
    requires 0 <= m < t && 0 <= f < t && q * t + m == b * t + f
    ensures q == b
  {
    if q > b {
      MulStrict(b, q, t);
    } else if q < b {
      MulStrict(q, b, t);
    }
  }

  lemma DivModOf(x: int, t: int, b: int, f: int)
    requires t > 0 && 0 <= f < t && x == b * t + f
    ensures x / t == b && x % t == f
  {
    QuotientUnique(x / t, x % t, b, f, t);
  }

  lemma Euclid(x: int, t: int)
    requires t > 0
    ensures x == (x / t) * t + x % t && 0 <= x % t < t
  {
  }

  lemma DivBelow(x: int, t: int, n: int)
    requires t > 0 && 0 <= x < n * t
    ensures 0 <= x / t < n
  {
    var q := x / t;
    assert x == q * t + x % t;
    if q >= n {
      Dist.MulLe(n, q, t);
    }
    if q < 0 {
      MulStrict(q, 0, t);
    }
  }

  // ------------------------------------------------------------ block sizes

  /**
   * `math.ceil(hash_size / local_size)`: the least block size for which
   * `local_size` blocks cover the feature's hash size.
   */
  function CeilDiv(hashSize: int, localSize: int): (r: int)
    requires localSize > 0
    ensures localSize * (r - 1) < hashSize <= localSize * r
  {
    var x := hashSize + localSize - 1;
    var q, m := x / localSize, x % localSize;
    assert x == q * localSize + m && 0 <= m < localSize;
    assert localSize * (q - 1) == q * localSize - localSize;
    q
  }

  /** `feature_block_sizes`: one ceiling block size per feature. */
  function BlockSizes(featureHashSizes: seq<int>, localSize: int): (r: seq<int>)
    requires localSize > 0
    ensures |r| == |featureHashSizes|
    ensures forall i :: 0 <= i < |r| ==> localSize * (r[i] - 1) < featureHashSizes[i] <= localSize * r[i]
  {
    seq(|featureHashSizes|, i requires 0 <= i < |featureHashSizes| => CeilDiv(featureHashSizes[i], localSize))
  }

  /**
   * Bucketizing by these block sizes sends every id below the hash size to
   * one of the `local_size` buckets: `id / block_size < local_size`.
   */
  lemma BucketInRange(hashSize: int, localSize: int, id: int)
    requires localSize > 0 && 0 <= id < hashSize
    ensures CeilDiv(hashSize, localSize) > 0
    ensures 0 <= id / CeilDiv(hashSize, localSize) < localSize
  {
    var bs := CeilDiv(hashSize, localSize);
    if bs <= 0 {
      Dist.MulLe(bs, 0, localSize);
    }
    DivBelow(id, bs, localSize);
  }

  // ------------------------------------------------------------ staggered shuffle

  /** `range(lo, hi)` */
  function Span(lo: int, hi: int): (r: seq<int>)
    ensures |r| == if lo <= hi then hi - lo else 0
    ensures forall k :: 0 <= k < |r| ==> r[k] == lo + k
  {
    if lo <= hi then seq(hi - lo, k requires 0 <= k < hi - lo => lo + k) else []
  }

  /** One node's entries of the shuffle: for each bucket, `bucket * num_features + feature` over the node's features. */
  function NodeRun(localSize: nat, numFeatures: int, lo: int, hi: int): seq<int>
  {
    Flatten(Buckets(localSize, numFeatures, lo, hi))
  }

  /** The buckets of one node's run. */
  function Buckets(localSize: nat, numFeatures: int, lo: int, hi: int): (r: seq<seq<int>>)
    ensures |r| == localSize
  {
    var fs := Span(lo, hi);
    seq(localSize, bucket => seq(|fs|, k requires 0 <= k < |fs| => bucket * numFeatures + fs[k]))
  }

  /**
   * `_staggered_shuffle` given `features_per_node`: node by node, bucket by
   * bucket, feature by feature over the node's range of
   * `node_offsets = [0] + accumulate(features_per_node)`.
   */
  function Shuffle(localSize: nat, featuresPerNode: seq<nat>): seq<int>
  {
    Flatten(Runs(localSize, featuresPerNode))
  }

  /** The runs of the shuffle, one per node. */
  function Runs(localSize: nat, featuresPerNode: seq<nat>): (r: seq<seq<int>>)
    ensures |r| == |featuresPerNode|
  {
    var offsets := CompleteCumsum(featuresPerNode);
    seq(|featuresPerNode|, node requires 0 <= node < |featuresPerNode| =>
      NodeRun(localSize, offsets[|featuresPerNode|], offsets[node], offsets[node + 1]))
  }

  /** Scaling every entry scales the sum. */
  lemma {:induction false} SumScale(s: seq<int>, c: int)
    ensures Sum(seq(|s|, i requires 0 <= i < |s| => c * s[i])) == c * Sum(s)
  {
    if s != [] {
      var n := |s|;
      var t := seq(n, i requires 0 <= i < n => c * s[i]);
      assert t[..n - 1] == seq(n - 1, i requires 0 <= i < n - 1 => c * s[..n - 1][i]);
      SumScale(s[..n - 1], c);
    }
  }

  /** A node's run has `local_size` entries per feature of the node. */
  lemma NodeRunLength(localSize: nat, numFeatures: int, lo: int, hi: int)
    requires lo <= hi
    ensures |NodeRun(localSize, numFeatures, lo, hi)| == localSize * (hi - lo)
  {
    var pieces := Buckets(localSize, numFeatures, lo, hi);
    var reps: seq<int> := Repeat(hi - lo, localSize);
    assert Sizes(pieces) == reps;
    FlattenSizes(pieces);
    SumRepeat(hi - lo, localSize);
    assert Sum(reps) == (hi - lo) * localSize;
  }

  /** Position `bucket * d + k` of a node's run holds `bucket * num_features + lo + k`. */
  lemma NodeRunAt(localSize: nat, numFeatures: int, lo: int, hi: int, d: int, bucket: int, k: int)
    requires hi - lo == d && 0 <= bucket < localSize && 0 <= k < d
    ensures |NodeRun(localSize, numFeatures, lo, hi)| == localSize * d
    ensures bucket * d + k < localSize * d
    ensures NodeRun(localSize, numFeatures, lo, hi)[bucket * d + k] == bucket * numFeatures + lo + k
  {
    var pieces := Buckets(localSize, numFeatures, lo, hi);
    NodeRunLength(localSize, numFeatures, lo, hi);
    FlattenAt(pieces, bucket);
    var reps: seq<int> := Repeat(d, bucket);
    assert Sizes(pieces)[..bucket] == reps;
    SumRepeat(d, bucket);
    MulStrict(bucket, localSize, d);
    assert pieces[bucket][k] == bucket * numFeatures + lo + k;
  }

  /** Position `bucket * features_per_node[node] + k` of node `node`'s run holds `bucket * num_features + offsets[node] + k`. */
  lemma RunAt(localSize: nat, featuresPerNode: seq<nat>, node: int, bucket: int, k: int)
    requires 0 <= node < |featuresPerNode| && 0 <= bucket < localSize && 0 <= k < featuresPerNode[node]
    ensures |Runs(localSize, featuresPerNode)[node]| == localSize * featuresPerNode[node]
    ensures bucket * featuresPerNode[node] + k < localSize * featuresPerNode[node]
    ensures Runs(localSize, featuresPerNode)[node][bucket * featuresPerNode[node] + k]
         == bucket * Sum(featuresPerNode) + CompleteCumsum(featuresPerNode)[node] + k
  {
    var offsets := CompleteCumsum(featuresPerNode);
    CumsumStep(featuresPerNode, node);
    CumsumEnds(featuresPerNode);
    NodeRunAt(localSize, offsets[|featuresPerNode|], offsets[node], offsets[node + 1], featuresPerNode[node], bucket, k);
  }

  /** The runs' offsets are `local_size` times the node offsets. */
  lemma RunOffsets(localSize: nat, featuresPerNode: seq<nat>, node: int)
    requires 0 <= node <= |featuresPerNode|
    ensures CompleteCumsum(Sizes(Runs(localSize, featuresPerNode)))[node] == localSize * CompleteCumsum(featuresPerNode)[node]
  {
    var offsets := CompleteCumsum(featuresPerNode);
    var m := |featuresPerNode|;
    var runs := Runs(localSize, featuresPerNode);
    var scaled := seq(node, i requires 0 <= i < node => localSize * featuresPerNode[..node][i]);
    forall i | 0 <= i < node
      ensures Sizes(runs)[i] == scaled[i]
    {
      CumsumStep(featuresPerNode, i);
      NodeRunLength(localSize, offsets[m], offsets[i], offsets[i + 1]);
    }
    assert Sizes(runs)[..node] == scaled;
    SumScale(featuresPerNode[..node], localSize);
  }

  /** The shuffle has `local_size` entries per feature. */
  lemma ShuffleLength(localSize: nat, featuresPerNode: seq<nat>)
    ensures |Shuffle(localSize, featuresPerNode)| == localSize * Sum(featuresPerNode)
  {
    var runs := Runs(localSize, featuresPerNode);
    FlattenSizes(runs);
    CumsumEnds(Sizes(runs));
    CumsumEnds(featuresPerNode);
    RunOffsets(localSize, featuresPerNode, |featuresPerNode|);
  }

  /**
   * Node-major, then bucket, then feature: feature `offsets[node] + k` of the
   * node, in bucket `bucket`, sits at position
   * `local_size * offsets[node] + bucket * features_per_node[node] + k` and
   * reads `bucket * num_features + offsets[node] + k`.
   */
  lemma ShuffleAt(localSize: nat, featuresPerNode: seq<nat>, node: int, bucket: int, k: int, i: int)
    requires 0 <= node < |featuresPerNode| && 0 <= bucket < localSize && 0 <= k < featuresPerNode[node]
    requires i == localSize * CompleteCumsum(featuresPerNode)[node] + bucket * featuresPerNode[node] + k
    ensures 0 <= i < |Shuffle(localSize, featuresPerNode)|
    ensures Shuffle(localSize, featuresPerNode)[i] == bucket * Sum(featuresPerNode) + CompleteCumsum(featuresPerNode)[node] + k
  {
    var runs := Runs(localSize, featuresPerNode);
    var base, j := localSize * CompleteCumsum(featuresPerNode)[node], bucket * featuresPerNode[node] + k;
    assert 0 <= j < |runs[node]| && runs[node][j] == bucket * Sum(featuresPerNode) + CompleteCumsum(featuresPerNode)[node] + k by {
      RunAt(localSize, featuresPerNode, node, bucket, k);
      MulNonNeg(bucket, featuresPerNode[node]);
    }
    assert base == CompleteCumsum(Sizes(runs))[node] by {
      RunOffsets(localSize, featuresPerNode, node);
    }
    FlattenIndex(runs, node, base, j, i);
  }

  lemma ConcatAt<T>(a: seq<T>, b: seq<T>, c: seq<T>, j: int)
    requires 0 <= j < |b|
    ensures |a| + j < |a + b + c| && (a + b + c)[|a| + j] == b[j]
  {
  }

  /** Entry `j` of piece `n` sits at `cumsum(sizes)[n] + j` of the flattened pieces. */
  lemma FlattenIndex<T>(pieces: seq<seq<T>>, n: int, base: int, j: int, i: int)
    requires 0 <= n < |pieces| && 0 <= j < |pieces[n]| && base == CompleteCumsum(Sizes(pieces))[n] && i == base + j
    ensures 0 <= i < |Flatten(pieces)|
    ensures Flatten(pieces)[i] == pieces[n][j]
  {
    var pre, rest := Flatten(pieces[..n]), Flatten(pieces[n + 1..]);
    FlattenAt(pieces, n);
    ConcatAt(pre, pieces[n], rest, j);
  }

  /** The block of a partition that holds position `x`. */
  function NodeOf(sizes: seq<int>, x: int): (n: int)
    requires AllNonNeg(sizes) && 0 <= x < Sum(sizes)
    ensures 0 <= n < |sizes| && CompleteCumsum(sizes)[n] <= x < CompleteCumsum(sizes)[n + 1]
    decreases |sizes|
  {
    var m := |sizes| - 1;
    assert sizes[..m + 1] == sizes;
    if x >= Sum(sizes[..m]) then m
    else
      var n := NodeOf(sizes[..m], x);
      CumsumPrefix(sizes, m, n);
      CumsumPrefix(sizes, m, n + 1);
      n
  }

  /** Only one block of a partition of non-negative sizes holds a position. */
  lemma NodeOfUnique(sizes: seq<int>, x: int, j: int)
    requires AllNonNeg(sizes) && 0 <= j < |sizes|
    requires CompleteCumsum(sizes)[j] <= x < CompleteCumsum(sizes)[j + 1]
    ensures 0 <= x < Sum(sizes) && NodeOf(sizes, x) == j
  {
    CumsumAt(sizes, j, j + 1);
    CumsumAt(sizes, j + 1, |sizes|);
    CumsumEnds(sizes);
    var n := NodeOf(sizes, x);
    if n < j {
      CumsumMonotone(sizes, n + 1, j);
    } else if n > j {
      CumsumMonotone(sizes, j + 1, n);
    }
  }

  /**
   * The inverse of the shuffle: the position at which key
   * `bucket * num_features + feature` of the bucketized KJT is placed.
   */
  function Unshuffle(localSize: nat, featuresPerNode: seq<nat>): (q: seq<int>)
    ensures |q| == localSize * Sum(featuresPerNode)
  {
    var total := Sum(featuresPerNode);
    var offsets := CompleteCumsum(featuresPerNode);
    SumNonNeg(featuresPerNode);
    MulNonNeg(localSize, total);
    seq(localSize * total, x requires 0 <= x < localSize * total =>
      assert total > 0;
      var node := NodeOf(featuresPerNode, x % total);
      localSize * offsets[node] + (x / total) * featuresPerNode[node] + (x % total - offsets[node]))
  }

  /** Consecutive runs are `local_size * features_per_node[node]` apart. */
  lemma RunStep(localSize: nat, featuresPerNode: seq<nat>, node: int)
    requires 0 <= node < |featuresPerNode|
    ensures var cs := CompleteCumsum(Sizes(Runs(localSize, featuresPerNode)));
      && cs[node] == localSize * CompleteCumsum(featuresPerNode)[node]
      && cs[node + 1] == cs[node] + localSize * featuresPerNode[node]
  {
    var offsets := CompleteCumsum(featuresPerNode);
    var runs := Runs(localSize, featuresPerNode);
    RunOffsets(localSize, featuresPerNode, node);
    CumsumStep(Sizes(runs), node);
    CumsumStep(featuresPerNode, node);
    NodeRunLength(localSize, offsets[|featuresPerNode|], offsets[node], offsets[node + 1]);
    assert |runs[node]| == localSize * featuresPerNode[node];
  }

  /** Key `bucket * num_features + offsets[node] + k` is placed at `local_size * offsets[node] + bucket * features_per_node[node] + k`. */
  lemma UnshuffleOf(localSize: nat, featuresPerNode: seq<nat>, node: int, bucket: int, k: int, y: int)
    requires 0 <= node < |featuresPerNode| && 0 <= bucket < localSize && 0 <= k < featuresPerNode[node]
    requires y == bucket * Sum(featuresPerNode) + CompleteCumsum(featuresPerNode)[node] + k
    ensures 0 <= y < |Unshuffle(localSize, featuresPerNode)|
    ensures Unshuffle(localSize, featuresPerNode)[y] == localSize * CompleteCumsum(featuresPerNode)[node] + bucket * featuresPerNode[node] + k
  {
    var total := Sum(featuresPerNode);
    var offsets := CompleteCumsum(featuresPerNode);
    var f := offsets[node] + k;
    assert 0 <= f < total by {
      CumsumStep(featuresPerNode, node);
      CumsumAt(featuresPerNode, node, node + 1);
      CumsumAt(featuresPerNode, node + 1, |featuresPerNode|);
      CumsumEnds(featuresPerNode);
    }
    assert 0 <= y < localSize * total by {
      MulStrict(bucket, localSize, total);
      MulNonNeg(bucket, total);
    }
    assert y / total == bucket && y % total == f by {
      DivModOf(y, total, bucket, f);
    }
    assert NodeOf(featuresPerNode, f) == node by {
      CumsumStep(featuresPerNode, node);
      NodeOfUnique(featuresPerNode, f, node);
    }
  }

  /** Every position of the shuffle is some node's bucket's feature. */
  lemma DecodePosition(localSize: nat, featuresPerNode: seq<nat>, i: int) returns (node: int, bucket: int, k: int)
    requires 0 <= i < |Shuffle(localSize, featuresPerNode)|
    ensures 0 <= node < |featuresPerNode| && 0 <= bucket < localSize && 0 <= k < featuresPerNode[node]
    ensures i == localSize * CompleteCumsum(featuresPerNode)[node] + bucket * featuresPerNode[node] + k
  {
    var offsets := CompleteCumsum(featuresPerNode);
    var runs := Runs(localSize, featuresPerNode);
    var sizes := Sizes(runs);
    assert AllNonNeg(sizes) && i < Sum(sizes) by {
      FlattenSizes(runs);
    }
    node := NodeOf(sizes, i);
    RunStep(localSize, featuresPerNode, node);
    bucket, k := SplitPosition(localSize, featuresPerNode[node], localSize * offsets[node], i);
  }

  /** A position in a run of `n` blocks of `d` entries is some block's entry. */
  lemma SplitPosition(n: int, d: int, base: int, i: int) returns (block: int, k: int)
    requires n >= 0 && base <= i < base + n * d
    ensures 0 <= block < n && 0 <= k < d && i == base + block * d + k
  {
    var j := i - base;
    assert d > 0 by {
      if d <= 0 {
        Dist.MulLe(d, 0, n);
      }
    }
    block, k := j / d, j % d;
    DivBelow(j, d, n);
    Euclid(j, d);
  }

  /** Every key below `local_size * num_features` is some node's bucket's feature, and the inverse places it in that run. */
  lemma DecodeKey(localSize: nat, featuresPerNode: seq<nat>, x: int) returns (node: int, bucket: int, k: int)
    requires 0 <= x < localSize * Sum(featuresPerNode)
    ensures 0 <= node < |featuresPerNode| && 0 <= bucket < localSize && 0 <= k < featuresPerNode[node]
    ensures x == bucket * Sum(featuresPerNode) + CompleteCumsum(featuresPerNode)[node] + k
    ensures Unshuffle(localSize, featuresPerNode)[x] == localSize * CompleteCumsum(featuresPerNode)[node] + bucket * featuresPerNode[node] + k
  {
    var total := Sum(featuresPerNode);
    var offsets := CompleteCumsum(featuresPerNode);
    assert total > 0 by {
      SumNonNeg(featuresPerNode);
    }
    var f := x % total;
    bucket := x / total;
    assert x == bucket * total + f && 0 <= f < total && 0 <= bucket < localSize by {
      DivBelow(x, total, localSize);
    }
    node := NodeOf(featuresPerNode, f);
    k := f - offsets[node];
    assert 0 <= k < featuresPerNode[node] by {
      CumsumStep(featuresPerNode, node);
    }
  }

  /** Reading the shuffle at the inverse position gives the key back. */
  lemma UnshuffleAt(localSize: nat, featuresPerNode: seq<nat>, x: int)
    requires 0 <= x < localSize * Sum(featuresPerNode)
    ensures 0 <= Unshuffle(localSize, featuresPerNode)[x] < |Shuffle(localSize, featuresPerNode)|
    ensures Shuffle(localSize, featuresPerNode)[Unshuffle(localSize, featuresPerNode)[x]] == x
  {
    var node, bucket, k := DecodeKey(localSize, featuresPerNode, x);
    ShuffleAt(localSize, featuresPerNode, node, bucket, k, Unshuffle(localSize, featuresPerNode)[x]);
  }

  /** The shuffle stays below `local_size * num_features`, and the inverse reads each entry back to its position. */
  lemma ShuffleDecode(localSize: nat, featuresPerNode: seq<nat>, i: int)
    requires 0 <= i < |Shuffle(localSize, featuresPerNode)|
    ensures 0 <= Shuffle(localSize, featuresPerNode)[i] < localSize * Sum(featuresPerNode)
    ensures Unshuffle(localSize, featuresPerNode)[Shuffle(localSize, featuresPerNode)[i]] == i
  {
    var node, b, k := DecodePosition(localSize, featuresPerNode, i);
    ShuffleAt(localSize, featuresPerNode, node, b, k, i);
    UnshuffleOf(localSize, featuresPerNode, node, b, k, Shuffle(localSize, featuresPerNode)[i]);
  }

  /**
   * The staggered shuffle is a permutation of `0 .. local_size * num_features - 1`:
   * it and `Unshuffle` are inverse to each other on both sides.
   */
  lemma ShufflePermutation(localSize: nat, featuresPerNode: seq<nat>)
    ensures |Shuffle(localSize, featuresPerNode)| == |Unshuffle(localSize, featuresPerNode)| == localSize * Sum(featuresPerNode)
    ensures InRange(Shuffle(localSize, featuresPerNode), localSize * Sum(featuresPerNode))
    ensures InRange(Unshuffle(localSize, featuresPerNode), localSize * Sum(featuresPerNode))
    ensures Pick(Shuffle(localSize, featuresPerNode), Unshuffle(localSize, featuresPerNode)) == Range(localSize * Sum(featuresPerNode))
    ensures Pick(Unshuffle(localSize, featuresPerNode), Shuffle(localSize, featuresPerNode)) == Range(localSize * Sum(featuresPerNode))
  {
    var p, q := Shuffle(localSize, featuresPerNode), Unshuffle(localSize, featuresPerNode);
    ShuffleLength(localSize, featuresPerNode);
    forall x | 0 <= x < |q|
      ensures 0 <= q[x] < |p| && p[q[x]] == x
    {
      UnshuffleAt(localSize, featuresPerNode, x);
    }
    forall i | 0 <= i < |p|
      ensures 0 <= p[i] < |q| && q[p[i]] == i
    {
      ShuffleDecode(localSize, featuresPerNode, i);
    }
  }

  /**
   * Permuting the bucketized KJT by the shuffle loses nothing: permuting the
   * result by `Unshuffle` gives the bucketized KJT back.
   */
  lemma ShuffleRoundTrip(c: Content, localSize: nat, featuresPerNode: seq<nat>)
    requires WellFormed(c) && |c.keys| == localSize * Sum(featuresPerNode)
    ensures InRange(Shuffle(localSize, featuresPerNode), |c.keys|)
    ensures InRange(Unshuffle(localSize, featuresPerNode), |Shuffle(localSize, featuresPerNode)|)
    ensures WellFormed(PermuteContent(c, Shuffle(localSize, featuresPerNode)))
    ensures PermuteContent(PermuteContent(c, Shuffle(localSize, featuresPerNode)), Unshuffle(localSize, featuresPerNode)) == c
  {
    ShufflePermutation(localSize, featuresPerNode);
    PermuteInverse(c, Shuffle(localSize, featuresPerNode), Unshuffle(localSize, featuresPerNode));
  }

  // ------------------------------------------------------------ features dist

  /** The index state `TwRwSparseFeaturesDist.__init__` builds (the all-to-all it wraps is not modelled). */
  datatype FeaturesDist = FeaturesDist(worldSize: nat, localSize: nat, numCrossNodes: nat,
                                       featureBlockSizes: seq<int>, staggeredShuffle: seq<int>)

  const GranularityMessage := "currently group granularity must be node"

  /** `[features_per_rank[node * local_size] for node in range(nodes)]`: the feature count of each node's first rank. */
  function FeaturesPerNode(featuresPerRank: seq<nat>, localSize: nat, nodes: nat): (r: seq<nat>)
    requires nodes == 0 || (nodes - 1) * localSize < |featuresPerRank|
    ensures |r| == nodes
  {
    seq(nodes, node requires 0 <= node < nodes =>
      Dist.MulLe(node, nodes - 1, localSize);
      featuresPerRank[node * localSize])
  }

  /**
   * `TwRwSparseFeaturesDist.__init__`: the node-granularity assert (a zero
   * local size fails in its `%`), the ceiling block sizes, and the staggered
   * shuffle, which indexes `features_per_rank` at every node's first rank.
   */
  function NewFeaturesDist(worldSize: nat, localSize: nat, featuresPerRank: seq<nat>, featureHashSizes: seq<int>)
    : (r: Result<FeaturesDist, Error>)
    ensures localSize == 0 ==> r == Failure(ZeroDivisionError)
    ensures localSize > 0 && worldSize % localSize != 0 ==> r == Failure(AssertionError(GranularityMessage))
    ensures r.Success? <==> localSize > 0 && worldSize % localSize == 0 && worldSize < |featuresPerRank| + localSize
    ensures r.Success? ==> && r.value.numCrossNodes * localSize == worldSize
                           && |r.value.featureBlockSizes| == |featureHashSizes|
                           && (forall i :: 0 <= i < |featureHashSizes| ==>
                                 localSize * (r.value.featureBlockSizes[i] - 1) < featureHashSizes[i] <= localSize * r.value.featureBlockSizes[i])
                           && r.value.staggeredShuffle == Shuffle(localSize, FeaturesPerNode(featuresPerRank, localSize, r.value.numCrossNodes))
  {
    if localSize == 0 then Failure(ZeroDivisionError)
    else if worldSize % localSize != 0 then Failure(AssertionError(GranularityMessage))
    else
      var nodes := worldSize / localSize;
      assert nodes * localSize == worldSize by {
        Euclid(worldSize, localSize);
      }
      assert nodes > 0 ==> (nodes - 1) * localSize == worldSize - localSize;
      var blockSizes := BlockSizes(featureHashSizes, localSize);
      if nodes > 0 && (nodes - 1) * localSize >= |featuresPerRank| then Failure(IndexError)
      else Success(FeaturesDist(worldSize, localSize, nodes, blockSizes,
                                Shuffle(localSize, FeaturesPerNode(featuresPerRank, localSize, nodes))))
  }

  /**
   * The constructed shuffle is a permutation of the bucketized keys: it
   * permutes the `local_size * num_features` keys of a bucketized KJT and
   * `Unshuffle` undoes it.
   */
  lemma FeaturesDistShuffle(worldSize: nat, localSize: nat, featuresPerRank: seq<nat>, featureHashSizes: seq<int>, c: Content)
    requires NewFeaturesDist(worldSize, localSize, featuresPerRank, featureHashSizes).Success?
    requires var fpn := FeaturesPerNode(featuresPerRank, localSize, worldSize / localSize);
      WellFormed(c) && |c.keys| == localSize * Sum(fpn)
    ensures var d := NewFeaturesDist(worldSize, localSize, featuresPerRank, featureHashSizes).value;
      var fpn := FeaturesPerNode(featuresPerRank, localSize, worldSize / localSize);
      && |d.staggeredShuffle| == |c.keys|
      && InRange(d.staggeredShuffle, |c.keys|)
      && InRange(Unshuffle(localSize, fpn), |d.staggeredShuffle|)
      && WellFormed(PermuteContent(c, d.staggeredShuffle))
      && PermuteContent(PermuteContent(c, d.staggeredShuffle), Unshuffle(localSize, fpn)) == c
  {
    var fpn := FeaturesPerNode(featuresPerRank, localSize, worldSize / localSize);
    ShuffleLength(localSize, fpn);
    ShuffleRoundTrip(c, localSize, fpn);
  }

  // ------------------------------------------------------------ batch sizes by cross group

  /** Every index `localRank + node * localSize` with `node < nodes` lies in `batchSizePerRank`. */
  predicate ColumnFits(batchSizePerRank: seq<int>, localSize: nat, nodes: nat, localRank: nat)
  {
    nodes == 0 || localRank + (nodes - 1) * localSize < |batchSizePerRank|
  }

  /** The batch sizes of the ranks whose local rank is `localRank`, node by node. */
  function CrossGroup(batchSizePerRank: seq<int>, localSize: nat, nodes: nat, localRank: nat): (r: seq<int>)
    requires ColumnFits(batchSizePerRank, localSize, nodes, localRank)
    ensures |r| == nodes
    ensures forall node :: 0 <= node < nodes ==>
      localRank + node * localSize < |batchSizePerRank| && r[node] == batchSizePerRank[localRank + node * localSize]
  {
    ColumnIndices(batchSizePerRank, localSize, nodes, localRank);
    seq(nodes, node requires 0 <= node < nodes => batchSizePerRank[localRank + node * localSize])
  }

  lemma ColumnIndices(batchSizePerRank: seq<int>, localSize: nat, nodes: nat, localRank: nat)
    requires ColumnFits(batchSizePerRank, localSize, nodes, localRank)
    ensures forall node :: 0 <= node < nodes ==> localRank + node * localSize < |batchSizePerRank|
  {
    forall node | 0 <= node < nodes
      ensures localRank + node * localSize < |batchSizePerRank|
    {
      Dist.MulLe(node, nodes - 1, localSize);
    }
  }

  /** The cross groups of the first `count` local ranks. */
  function CrossGroups(batchSizePerRank: seq<int>, localSize: nat, nodes: nat, count: nat): (r: seq<seq<int>>)
    requires count == 0 || ColumnFits(batchSizePerRank, localSize, nodes, count - 1)
    ensures |r| == count
    ensures forall l :: 0 <= l < count ==> |r[l]| == nodes
  {
    seq(count, localRank requires 0 <= localRank < count => CrossGroup(batchSizePerRank, localSize, nodes, localRank))
  }

  lemma CrossGroupStep(batchSizePerRank: seq<int>, localSize: nat, node: nat, localRank: nat, i: int)
    requires ColumnFits(batchSizePerRank, localSize, node, localRank)
    requires i == localRank + node * localSize && i < |batchSizePerRank|
    ensures ColumnFits(batchSizePerRank, localSize, node + 1, localRank)
    ensures CrossGroup(batchSizePerRank, localSize, node + 1, localRank)
         == CrossGroup(batchSizePerRank, localSize, node, localRank) + [batchSizePerRank[i]]
  {
  }

  lemma CrossGroupsStep(batchSizePerRank: seq<int>, localSize: nat, nodes: nat, count: nat)
    requires ColumnFits(batchSizePerRank, localSize, nodes, count)
    ensures count == 0 || ColumnFits(batchSizePerRank, localSize, nodes, count - 1)
    ensures CrossGroups(batchSizePerRank, localSize, nodes, count + 1)
         == CrossGroups(batchSizePerRank, localSize, nodes, count) + [CrossGroup(batchSizePerRank, localSize, nodes, count)]
  {
  }

  /** The sum of each row. */
  function RowSums(m: seq<seq<int>>): (r: seq<int>)
    ensures |r| == |m|
  {
    seq(|m|, i requires 0 <= i < |m| => Sum(m[i]))
  }

  lemma RowSumsStep(m: seq<seq<int>>, row: seq<int>)
    ensures RowSums(m + [row]) == RowSums(m) + [Sum(row)]
  {
  }

  /** Enough batch sizes for every node: the last local rank's column fits. */
  lemma ColumnsFit(batchSizePerRank: seq<int>, localSize: nat, nodes: nat)
    ensures localSize > 0 && ColumnFits(batchSizePerRank, localSize, nodes, localSize - 1)
        <==> localSize > 0 && (nodes == 0 || localSize * nodes <= |batchSizePerRank|)
  {
    if localSize > 0 && nodes > 0 {
      assert (nodes - 1) * localSize == localSize * nodes - localSize;
    }
  }

  /** An index of the regrouping past the batch sizes means there are fewer than `localSize * nodes`. */
  lemma ColumnOverrun(batchSizePerRank: seq<int>, localSize: nat, nodes: nat, localRank: int, node: int)
    requires 0 <= localRank < localSize && 0 <= node < nodes
    requires localRank + node * localSize >= |batchSizePerRank|
    ensures localSize * nodes > |batchSizePerRank|
  {
    Dist.MulLe(node + 1, nodes, localSize);
  }

  /**
   * What `_preprocess_batch_size_per_rank` returns: row `l` lists the batch
   * sizes of local rank `l` on every node, and the second list their sums.
   * An index past `batchSizePerRank` is an `IndexError`.
   */
  function ByCrossGroup(batchSizePerRank: seq<int>, localSize: nat, nodes: nat): (r: Result<(seq<seq<int>>, seq<int>), Error>)
    ensures r.Failure? <==> localSize > 0 && nodes > 0 && localSize * nodes > |batchSizePerRank|
    ensures r.Failure? ==> r.error == IndexError
    ensures r.Success? ==> |r.value.0| == localSize && |r.value.1| == localSize
    ensures r.Success? ==> forall l :: 0 <= l < localSize ==>
      |r.value.0[l]| == nodes && r.value.1[l] == Sum(r.value.0[l])
  {
    if localSize > 0 && nodes > 0 && localSize * nodes > |batchSizePerRank| then Failure(IndexError)
    else
      ColumnsFit(batchSizePerRank, localSize, nodes);
      var rows := CrossGroups(batchSizePerRank, localSize, nodes, localSize);
      Success((rows, RowSums(rows)))
  }

  /** Row `l`, column `node` of the regrouping is the batch size of rank `l + node * localSize`. */
  lemma ByCrossGroupAt(batchSizePerRank: seq<int>, localSize: nat, nodes: nat, l: int, node: int)
    requires ByCrossGroup(batchSizePerRank, localSize, nodes).Success?
    requires 0 <= l < localSize && 0 <= node < nodes
    ensures l + node * localSize < |batchSizePerRank|
    ensures ByCrossGroup(batchSizePerRank, localSize, nodes).value.0[l][node] == batchSizePerRank[l + node * localSize]
  {
    ColumnsFit(batchSizePerRank, localSize, nodes);
    assert ColumnFits(batchSizePerRank, localSize, nodes, l);
  }

  /** `_preprocess_batch_size_per_rank`: the two nested loops that regroup the batch sizes by local rank. */
  method PreprocessBatchSizePerRank(localSize: nat, nodes: nat, batchSizePerRank: seq<int>)
    returns (r: Result<(seq<seq<int>>, seq<int>), Error>)
    ensures r == ByCrossGroup(batchSizePerRank, localSize, nodes)
  {
    var byCrossGroup: seq<seq<int>> := [];
    var sumByCrossGroup: seq<int> := [];
    for localRank := 0 to localSize
      invariant localRank == 0 || ColumnFits(batchSizePerRank, localSize, nodes, localRank - 1)
      invariant byCrossGroup == CrossGroups(batchSizePerRank, localSize, nodes, localRank)
      invariant sumByCrossGroup == RowSums(byCrossGroup)
    {
      var row: seq<int> := [];
      var sum := 0;
      for node := 0 to nodes
        invariant ColumnFits(batchSizePerRank, localSize, node, localRank)
        invariant row == CrossGroup(batchSizePerRank, localSize, node, localRank)
        invariant sum == Sum(row)
      {
        var i := localRank + node * localSize;
        if i >= |batchSizePerRank| {
          ColumnOverrun(batchSizePerRank, localSize, nodes, localRank, node);
          return Failure(IndexError);
        }
        CrossGroupStep(batchSizePerRank, localSize, node, localRank, i);
        assert (row + [batchSizePerRank[i]])[..node] == row;
        row := row + [batchSizePerRank[i]];
        sum := sum + batchSizePerRank[i];
      }
      CrossGroupsStep(batchSizePerRank, localSize, nodes, localRank);
      RowSumsStep(byCrossGroup, row);
      byCrossGroup := byCrossGroup + [row];
      sumByCrossGroup := sumByCrossGroup + [sum];
    }
    ColumnsFit(batchSizePerRank, localSize, nodes);
    return Success((byCrossGroup, sumByCrossGroup));
  }

  /**
   * When there is one batch size per rank, the regrouping is a transpose:
   * the batch size of rank `i` sits in row `i % localSize`, column `i / localSize`.
   */
  lemma CrossGroupCovers(batchSizePerRank: seq<int>, localSize: nat, nodes: nat, i: int)
    requires |batchSizePerRank| == localSize * nodes && 0 <= i < |batchSizePerRank|
    ensures ByCrossGroup(batchSizePerRank, localSize, nodes).Success?
    ensures localSize > 0 && 0 <= i / localSize < nodes
    ensures ByCrossGroup(batchSizePerRank, localSize, nodes).value.0[i % localSize][i / localSize] == batchSizePerRank[i]
  {
    assert localSize > 0;
    Euclid(i, localSize);
    DivBelow(i, localSize, nodes);
    ByCrossGroupAt(batchSizePerRank, localSize, nodes, i % localSize, i / localSize);
  }

  /** A matrix whose rows all have `cols` entries. */
  predicate Rectangular(m: seq<seq<int>>, cols: nat)
  {
    forall i :: 0 <= i < |m| ==> |m[i]| == cols
  }

  function Column(m: seq<seq<int>>, cols: nat, j: nat): (r: seq<int>)
    requires Rectangular(m, cols) && j < cols
    ensures |r| == |m|
  {
    seq(|m|, i requires 0 <= i < |m| => m[i][j])
  }

  function ColumnSums(m: seq<seq<int>>, cols: nat): (r: seq<int>)
    requires Rectangular(m, cols)
    ensures |r| == cols
  {
    seq(cols, j requires 0 <= j < cols => Sum(Column(m, cols, j)))
  }

  lemma {:induction false} SumAdd(a: seq<int>, b: seq<int>, c: seq<int>)
    requires |a| == |b| == |c|
    requires forall j :: 0 <= j < |c| ==> c[j] == a[j] + b[j]
    ensures Sum(c) == Sum(a) + Sum(b)
  {
    if c != [] {
      var k := |c| - 1;
      SumAdd(a[..k], b[..k], c[..k]);
    }
  }

  /** Adding up a rectangular matrix row by row or column by column gives the same total. */
  lemma {:induction false} SumSwap(m: seq<seq<int>>, cols: nat)
    requires Rectangular(m, cols)
    ensures Sum(RowSums(m)) == Sum(ColumnSums(m, cols))
  {
    if m == [] {
      assert ColumnSums(m, cols) == Repeat(0, cols);
      SumRepeat(0, cols);
    } else {
      var k := |m| - 1;
      var p := m[..k];
      SumSwap(p, cols);
      assert RowSums(m)[..k] == RowSums(p);
      forall j | 0 <= j < cols
        ensures ColumnSums(m, cols)[j] == ColumnSums(p, cols)[j] + m[k][j]
      {
        assert Column(m, cols, j)[..k] == Column(p, cols, j);
      }
      SumAdd(ColumnSums(p, cols), m[k], ColumnSums(m, cols));
    }
  }

  /** Node `n`'s block of `localSize` batch sizes holds local rank `l` at `l + n * localSize`. */
  lemma NodeBlockAt(batchSizePerRank: seq<int>, localSize: nat, nodes: nat, n: int, l: int)
    requires |batchSizePerRank| == localSize * nodes && 0 <= n < nodes && 0 <= l < localSize
    ensures Partitions(Repeat(localSize as int, nodes), |batchSizePerRank|)
    ensures |Blocks(batchSizePerRank, Repeat(localSize as int, nodes))[n]| == localSize
    ensures l + n * localSize < |batchSizePerRank|
    ensures Blocks(batchSizePerRank, Repeat(localSize as int, nodes))[n][l] == batchSizePerRank[l + n * localSize]
  {
    var reps: seq<int> := Repeat(localSize as int, nodes);
    var cs := CompleteCumsum(reps);
    assert Partitions(reps, |batchSizePerRank|) by {
      SumRepeat(localSize, nodes);
    }
    assert cs[n] == n * localSize by {
      CumsumOfRepeat(localSize, nodes, n);
    }
    assert cs[n + 1] == n * localSize + localSize by {
      CumsumOfRepeat(localSize, nodes, n + 1);
    }
    BlockAt(batchSizePerRank, reps, n);
  }

  /**
   * With one batch size per rank, the per-local-rank sums add up to the
   * whole batch: no rank is dropped or counted twice.
   */
  lemma CrossGroupTotal(batchSizePerRank: seq<int>, localSize: nat, nodes: nat)
    requires |batchSizePerRank| == localSize * nodes
    ensures ByCrossGroup(batchSizePerRank, localSize, nodes).Success?
    ensures Sum(ByCrossGroup(batchSizePerRank, localSize, nodes).value.1) == Sum(batchSizePerRank)
  {
    var reps: seq<int> := Repeat(localSize as int, nodes);
    SumRepeat(localSize, nodes);
    var b := Blocks(batchSizePerRank, reps);
    BlockSumsTotal(batchSizePerRank, reps);
    assert BlockSums(batchSizePerRank, reps) == RowSums(b);
    var rows := ByCrossGroup(batchSizePerRank, localSize, nodes).value.0;
    forall l | 0 <= l < localSize
      ensures ColumnSums(b, localSize)[l] == ByCrossGroup(batchSizePerRank, localSize, nodes).value.1[l]
    {
      forall n | 0 <= n < nodes
        ensures Column(b, localSize, l)[n] == rows[l][n]
      {
        NodeBlockAt(batchSizePerRank, localSize, nodes, n, l);
        ByCrossGroupAt(batchSizePerRank, localSize, nodes, l, n);
      }
      assert Column(b, localSize, l) == rows[l];
    }
    SumSwap(b, localSize);
    assert ColumnSums(b, localSize) == ByCrossGroup(batchSizePerRank, localSize, nodes).value.1;
  }

  // ------------------------------------------------------------ shard placement

  /**
   * What `_shard` reads of an `EmbeddingShardingInfo`: the table name, the
   * ranks of its parameter sharding and the row count of each shard.
   */
  datatype ShardingInfo = ShardingInfo(name: string, ranks: seq<nat>, shardRows: seq<int>)

  /** A `ShardedEmbeddingTable` as placed on one rank: which shard of which table, and its local rows. */
  datatype ShardedTable = ShardedTable(name: string, shard: nat, localRows: int)

  /**
   * The error `_shard` raises on one table, if any: `ranks[0]` of an empty
   * rank list, the floor division by a zero local size, and a rank of the
   * table's node past the world size or a shard index past its shards.
   */
  function InfoError(worldSize: nat, localSize: nat, info: ShardingInfo): Option<Error>
  {
    if info.ranks == [] then Some(IndexError)
    else if localSize == 0 then Some(ZeroDivisionError)
    else
      var tableNode := info.ranks[0] / localSize;
      if tableNode * localSize + localSize > worldSize || |info.shardRows| < localSize then Some(IndexError)
      else None
  }

  /** The first table's error, in the order `_shard` visits the tables. */
  function FirstError(worldSize: nat, localSize: nat, infos: seq<ShardingInfo>): Option<Error>
  {
    if infos == [] then None
    else
      var k := |infos| - 1;
      match FirstError(worldSize, localSize, infos[..k])
      case Some(e) => Some(e)
      case None => InfoError(worldSize, localSize, infos[k])
  }

  /** `_shard` raises exactly when some table fails. */
  lemma {:induction false} FirstErrorNone(worldSize: nat, localSize: nat, infos: seq<ShardingInfo>)
    ensures FirstError(worldSize, localSize, infos) == None
        <==> forall j :: 0 <= j < |infos| ==> InfoError(worldSize, localSize, infos[j]) == None
  {
    if infos != [] {
      var k := |infos| - 1;
      FirstErrorNone(worldSize, localSize, infos[..k]);
      if FirstError(worldSize, localSize, infos[..k]) != None {
        var j :| 0 <= j < k && InfoError(worldSize, localSize, infos[..k][j]) != None;
        assert InfoError(worldSize, localSize, infos[j]) != None;
      }
    }
  }

  /** Once a prefix of the tables fails, the whole list fails with the same error. */
  lemma {:induction false} FirstErrorPrefix(worldSize: nat, localSize: nat, infos: seq<ShardingInfo>, n: int)
    requires 0 <= n <= |infos| && FirstError(worldSize, localSize, infos[..n]) != None
    ensures FirstError(worldSize, localSize, infos) == FirstError(worldSize, localSize, infos[..n])
    decreases |infos|
  {
    if n < |infos| {
      var k := |infos| - 1;
      assert infos[..k][..n] == infos[..n];
      FirstErrorPrefix(worldSize, localSize, infos[..k], n);
    } else {
      assert infos[..n] == infos;
    }
  }

  /** The first table that fails decides the error. */
  lemma FirstErrorAt(worldSize: nat, localSize: nat, infos: seq<ShardingInfo>, i: int)
    requires 0 <= i < |infos| && FirstError(worldSize, localSize, infos[..i]) == None
    requires InfoError(worldSize, localSize, infos[i]) != None
    ensures FirstError(worldSize, localSize, infos) == InfoError(worldSize, localSize, infos[i])
  {
    assert infos[..i + 1][..i] == infos[..i];
    FirstErrorPrefix(worldSize, localSize, infos, i + 1);
  }

  /** Shard `shard` of a table, as its `ShardedEmbeddingTable` records it. */
  function Entry(info: ShardingInfo, shard: nat): (t: ShardedTable)
    requires shard < |info.shardRows|
    ensures t.name == info.name && t.shard == shard
  {
    ShardedTable(info.name, shard, info.shardRows[shard])
  }

  /**
   * The list `_shard` builds for `rank`: in table order, shard `rank % localSize`
   * of every table whose first rank is on `rank`'s node.
   */
  function Placed(worldSize: nat, localSize: nat, infos: seq<ShardingInfo>, rank: nat): seq<ShardedTable>
    requires FirstError(worldSize, localSize, infos) == None
  {
    if infos == [] then []
    else
      var k := |infos| - 1;
      var info := infos[k];
      Placed(worldSize, localSize, infos[..k], rank)
        + if info.ranks[0] / localSize == rank / localSize then [Entry(info, rank % localSize)] else []
  }

  /** The shard of `info` that rank `q` receives from the ranks `lo` to `hi - 1` of its node, if any. */
  function NodeShards(info: ShardingInfo, lo: int, hi: int, q: int): seq<ShardedTable>
    requires hi - lo <= |info.shardRows|
  {
    if lo <= q < hi then [Entry(info, q - lo)] else []
  }

  /** What `_shard` returns, or the error it raises. */
  function Sharded(worldSize: nat, localSize: nat, infos: seq<ShardingInfo>): (r: Result<seq<seq<ShardedTable>>, Error>)
    ensures r.Failure? <==> exists j :: 0 <= j < |infos| && InfoError(worldSize, localSize, infos[j]) != None
    ensures r.Success? ==> |r.value| == worldSize
  {
    FirstErrorNone(worldSize, localSize, infos);
    match FirstError(worldSize, localSize, infos)
    case Some(e) => Failure(e)
    case None => Success(seq(worldSize, rank requires 0 <= rank < worldSize => Placed(worldSize, localSize, infos, rank)))
  }

  /** Rank `q` lies on node `node` exactly when it is one of the node's `localSize` ranks; its local rank is then its offset. */
  lemma SameNode(q: nat, localSize: nat, node: int)
    requires localSize > 0
    ensures q / localSize == node <==> node * localSize <= q < node * localSize + localSize
    ensures node * localSize <= q < node * localSize + localSize ==> q % localSize == q - node * localSize
  {
    Euclid(q, localSize);
    if node * localSize <= q < node * localSize + localSize {
      DivModOf(q, localSize, node, q - node * localSize);
    }
  }

  /** Adding a table that fits appends, on each rank of its node, the rank's shard of it. */
  lemma PlacedNext(worldSize: nat, localSize: nat, infos: seq<ShardingInfo>, i: int, q: nat, lo: int, hi: int)
    requires 0 <= i < |infos| && FirstError(worldSize, localSize, infos[..i]) == None
    requires InfoError(worldSize, localSize, infos[i]) == None
    requires infos[i].ranks != [] && localSize > 0
    requires lo == infos[i].ranks[0] / localSize * localSize && hi == lo + localSize
    ensures FirstError(worldSize, localSize, infos[..i + 1]) == None
    ensures hi - lo <= |infos[i].shardRows|
    ensures Placed(worldSize, localSize, infos[..i + 1], q)
         == Placed(worldSize, localSize, infos[..i], q) + NodeShards(infos[i], lo, hi, q)
  {
    assert infos[..i + 1][..i] == infos[..i];
    SameNode(q, localSize, infos[i].ranks[0] / localSize);
  }

  /** Placing table `i` on its node extends the lists of the first `i` tables to those of the first `i + 1`. */
  lemma ShardStep(worldSize: nat, localSize: nat, infos: seq<ShardingInfo>, i: int,
                  tablesPerRank: seq<seq<ShardedTable>>, placed: seq<seq<ShardedTable>>, lo: int)
    requires 0 <= i < |infos| && FirstError(worldSize, localSize, infos[..i]) == None
    requires |tablesPerRank| == worldSize
    requires forall q :: 0 <= q < worldSize ==> tablesPerRank[q] == Placed(worldSize, localSize, infos[..i], q)
    requires infos[i].ranks != [] && localSize > 0 && lo == infos[i].ranks[0] / localSize * localSize
    requires lo + localSize <= worldSize && localSize <= |infos[i].shardRows|
    requires |placed| == worldSize
    requires forall q :: 0 <= q < worldSize ==> placed[q] == tablesPerRank[q] + NodeShards(infos[i], lo, lo + localSize, q)
    ensures FirstError(worldSize, localSize, infos[..i + 1]) == None
    ensures forall q :: 0 <= q < worldSize ==> placed[q] == Placed(worldSize, localSize, infos[..i + 1], q)
  {
    assert InfoError(worldSize, localSize, infos[i]) == None;
    assert FirstError(worldSize, localSize, infos[..i + 1]) == None by {
      assert infos[..i + 1][..i] == infos[..i];
    }
    forall q | 0 <= q < worldSize
      ensures placed[q] == Placed(worldSize, localSize, infos[..i + 1], q)
    {
      assert tablesPerRank[q] == Placed(worldSize, localSize, infos[..i], q);
      PlacedNext(worldSize, localSize, infos, i, q, lo, lo + localSize);
    }
  }

  /**
   * The inner loop of `_shard`: append shard `rank - lo` of `info` to every
   * rank from `lo` to `lo + localSize - 1`. It fails (`ok` false, the
   * `IndexError`) when a rank runs past the world or a shard index past the
   * table's shards.
   */
  method PlaceOnNode(tablesPerRank: seq<seq<ShardedTable>>, info: ShardingInfo, lo: nat, localSize: nat)
    returns (ok: bool, placed: seq<seq<ShardedTable>>)
    requires localSize > 0
    ensures ok <==> lo + localSize <= |tablesPerRank| && localSize <= |info.shardRows|
    ensures ok ==> |placed| == |tablesPerRank|
    ensures ok ==> forall q :: 0 <= q < |tablesPerRank| ==>
      placed[q] == tablesPerRank[q] + NodeShards(info, lo, lo + localSize, q)
  {
    placed := tablesPerRank;
    var rank := lo;
    while rank < lo + localSize
      invariant lo <= rank <= lo + localSize
      invariant rank == lo || rank <= |tablesPerRank|
      invariant rank - lo <= |info.shardRows|
      invariant |placed| == |tablesPerRank|
      invariant forall q :: 0 <= q < |placed| ==> placed[q] == tablesPerRank[q] + NodeShards(info, lo, rank, q)
    {
      if rank >= |placed| || rank - lo >= |info.shardRows| {
        return false, placed;
      }
      placed := placed[rank := placed[rank] + [Entry(info, rank - lo)]];
      rank := rank + 1;
    }
    ok := true;
  }

  /**
   * `_shard`: every table goes to all the ranks of the node holding its
   * first rank, rank `node * localSize + s` receiving shard `s`.
   */
  method Shard(worldSize: nat, localSize: nat, infos: seq<ShardingInfo>) returns (r: Result<seq<seq<ShardedTable>>, Error>)
    ensures r == Sharded(worldSize, localSize, infos)
  {
    var tablesPerRank: seq<seq<ShardedTable>> := seq(worldSize, _ => []);
    for i := 0 to |infos|
      invariant FirstError(worldSize, localSize, infos[..i]) == None
      invariant |tablesPerRank| == worldSize
      invariant forall q :: 0 <= q < worldSize ==> tablesPerRank[q] == Placed(worldSize, localSize, infos[..i], q)
    {
      var info := infos[i];
      if info.ranks == [] {
        FirstErrorAt(worldSize, localSize, infos, i);
        return Failure(IndexError);
      }
      if localSize == 0 {
        FirstErrorAt(worldSize, localSize, infos, i);
        return Failure(ZeroDivisionError);
      }
      var tableNode := info.ranks[0] / localSize;
      var ok, placed := PlaceOnNode(tablesPerRank, info, tableNode * localSize, localSize);
      if !ok {
        FirstErrorAt(worldSize, localSize, infos, i);
        return Failure(IndexError);
      }
      ShardStep(worldSize, localSize, infos, i, tablesPerRank, placed, tableNode * localSize);
      tablesPerRank := placed;
    }
    assert infos[..|infos|] == infos;
    assert tablesPerRank == Sharded(worldSize, localSize, infos).value;
    return Success(tablesPerRank);
  }

  /** Rank `rank` receives `t` from `info`: the table's first rank is on `rank`'s node and `t` is its shard `rank % localSize`. */
  predicate Receives(localSize: nat, info: ShardingInfo, rank: nat, t: ShardedTable)
  {
    && info.ranks != [] && localSize > 0
    && info.ranks[0] / localSize == rank / localSize
    && rank % localSize < |info.shardRows|
    && t == Entry(info, rank % localSize)
  }

  lemma ShardedPlaced(worldSize: nat, localSize: nat, infos: seq<ShardingInfo>, tables: seq<seq<ShardedTable>>)
    requires Sharded(worldSize, localSize, infos) == Success(tables)
    ensures FirstError(worldSize, localSize, infos) == None && |tables| == worldSize
    ensures forall q :: 0 <= q < worldSize ==> tables[q] == Placed(worldSize, localSize, infos, q)
  {
  }

  /** A rank's list holds exactly the shards it receives from the tables. */
  lemma {:induction false} PlacedMember(worldSize: nat, localSize: nat, infos: seq<ShardingInfo>, rank: nat, t: ShardedTable)
    requires FirstError(worldSize, localSize, infos) == None
    ensures t in Placed(worldSize, localSize, infos, rank) <==> exists j :: 0 <= j < |infos| && Receives(localSize, infos[j], rank, t)
    decreases |infos|
  {
    if infos != [] {
      var k := |infos| - 1;
      var prefix := infos[..k];
      PlacedMember(worldSize, localSize, prefix, rank, t);
      if t in Placed(worldSize, localSize, infos, rank) {
        if t in Placed(worldSize, localSize, prefix, rank) {
          var j :| 0 <= j < k && Receives(localSize, prefix[j], rank, t);
          assert Receives(localSize, infos[j], rank, t);
        } else {
          assert Receives(localSize, infos[k], rank, t);
        }
      }
      if exists j :: 0 <= j < |infos| && Receives(localSize, infos[j], rank, t) {
        var j :| 0 <= j < |infos| && Receives(localSize, infos[j], rank, t);
        if j < k {
          assert Receives(localSize, prefix[j], rank, t);
        }
      }
    }
  }

  /**
   * Every shard is placed: shard `s` of table `j` is on rank
   * `node * localSize + s`, where `node` is the node of the table's first rank.
   */
  lemma ShardPlacement(worldSize: nat, localSize: nat, infos: seq<ShardingInfo>, tables: seq<seq<ShardedTable>>, j: int, s: int)
    requires Sharded(worldSize, localSize, infos) == Success(tables)
    requires 0 <= j < |infos| && 0 <= s < localSize
    ensures infos[j].ranks != [] && localSize <= |infos[j].shardRows|
    ensures infos[j].ranks[0] / localSize * localSize + s < worldSize
    ensures Entry(infos[j], s) in tables[infos[j].ranks[0] / localSize * localSize + s]
  {
    var info := infos[j];
    assert InfoError(worldSize, localSize, info) == None by {
      ShardedPlaced(worldSize, localSize, infos, tables);
      FirstErrorNone(worldSize, localSize, infos);
    }
    var node := info.ranks[0] / localSize;
    var rank := node * localSize + s;
    var t := Entry(info, s);
    assert Receives(localSize, info, rank, t) by {
      SameNode(rank, localSize, node);
    }
    assert t in Placed(worldSize, localSize, infos, rank) by {
      ShardedPlaced(worldSize, localSize, infos, tables);
      PlacedMember(worldSize, localSize, infos, rank, t);
    }
    assert tables[rank] == Placed(worldSize, localSize, infos, rank) by {
      ShardedPlaced(worldSize, localSize, infos, tables);
    }
  }

  /**
   * Nothing else is placed: every entry on rank `q` is shard `q % localSize`
   * of a table whose first rank is on `q`'s node.
   */
  lemma ShardContents(worldSize: nat, localSize: nat, infos: seq<ShardingInfo>, tables: seq<seq<ShardedTable>>, q: int, t: ShardedTable)
    requires Sharded(worldSize, localSize, infos) == Success(tables)
    requires 0 <= q < worldSize && t in tables[q]
    ensures localSize > 0 && t.shard == q % localSize
    ensures exists j :: 0 <= j < |infos| && Receives(localSize, infos[j], q, t)
  {
    ShardedPlaced(worldSize, localSize, infos, tables);
    PlacedMember(worldSize, localSize, infos, q, t);
  }
}
