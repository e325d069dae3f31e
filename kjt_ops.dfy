// What a KeyedJaggedTensor holds, and what split, concat, permute and key
// lookup do to it.
//
// The content of a KJT is its keys, its value and weight buffers, its row
// lengths (whichever of lengths and offsets it stores) and its stride
// bookkeeping. The restructuring operations are specified here on contents;
// the class in keyed_jagged.dfy is proved to build exactly these contents.

module KjtOps {
  import opened Wrappers
  import opened Prefix
  import opened Segments
  import opened KjtSpec

  datatype Content = Content(keys: seq<string>, values: seq<int>, weights: Option<seq<int>>,
                             lengths: seq<int>, strides: Strides)

  /** The jagged tensor of one key: its values, its weights and its row lengths. */
  datatype Jt = Jt(values: seq<int>, weights: Option<seq<int>>, lengths: seq<int>)

  /**
   * The valid-input contract of a KJT: stride fields that belong together,
   * non-negative row lengths, `stride_per_key` cutting the rows into per-key
   * blocks, rows covering the values, and weights parallel to the values.
   */
  predicate WellFormed(c: Content)
  {
    && StridesValid(|c.keys|, c.strides)
    && AllNonNeg(c.lengths)
    && Partitions(c.strides.stridePerKey, |c.lengths|)
    && Sum(c.lengths) == |c.values|
    && (c.weights.Some? ==> |c.weights.value| == |c.values|)
  }

  /** `length_per_key()`: one value count per key, and together they cut the value buffer. */
  function KeyLengths(c: Content): (r: seq<int>)
    requires WellFormed(c)
    ensures |r| == |c.keys| && Partitions(r, |c.values|)
  {
    assert Partitions(LengthPerKey(c.lengths, c.strides.stridePerKey), |c.values|) by {
      LengthPerKeyTotal(c.lengths, c.strides.stridePerKey);
    }
    LengthPerKey(c.lengths, c.strides.stridePerKey)
  }

  /** `offset_per_key()`: where each key's values start, and the total at the end. */
  function ValueOffsets(c: Content): seq<int>
    requires WellFormed(c)
  {
    CompleteCumsum(KeyLengths(c))
  }

  /** `lengths_offset_per_key()`: where each key's rows start, and the row count at the end. */
  function RowOffsets(c: Content): seq<int>
  {
    CompleteCumsum(c.strides.stridePerKey)
  }

  lemma OffsetBounds(c: Content)
    requires WellFormed(c)
    ensures |ValueOffsets(c)| == |RowOffsets(c)| == |c.keys| + 1
    ensures ValueOffsets(c)[0] == 0 && ValueOffsets(c)[|c.keys|] == |c.values|
    ensures RowOffsets(c)[0] == 0 && RowOffsets(c)[|c.keys|] == |c.lengths|
    ensures forall i, j :: 0 <= i <= j <= |c.keys| ==> 0 <= ValueOffsets(c)[i] <= ValueOffsets(c)[j] <= |c.values|
    ensures forall i, j :: 0 <= i <= j <= |c.keys| ==> 0 <= RowOffsets(c)[i] <= RowOffsets(c)[j] <= |c.lengths|
  {
    CumsumShape(KeyLengths(c));
    CumsumBounds(KeyLengths(c));
    CumsumShape(c.strides.stridePerKey);
    CumsumBounds(c.strides.stridePerKey);
  }

  /** The value and row offsets of keys `i <= j`, in bounds and in order. */
  lemma OffsetsAt(c: Content, i: int, j: int)
    requires WellFormed(c) && 0 <= i <= j <= |c.keys|
    ensures |ValueOffsets(c)| == |RowOffsets(c)| == |c.keys| + 1
    ensures 0 <= ValueOffsets(c)[i] <= ValueOffsets(c)[j] <= |c.values|
    ensures 0 <= RowOffsets(c)[i] <= RowOffsets(c)[j] <= |c.lengths|
  {
    OffsetBounds(c);
  }

  /**
   * The stride arguments every derived KJT is built with: `stride_per_key_per_rank`
   * in variable mode, else the stride alone; the constructor then never raises.
   */
  function PassStrides(numKeys: nat, variable: bool, stride: int, spkpr: seq<seq<int>>): (r: Strides)
    ensures r == InitStrides(numKeys, if variable then None else Some(stride), if variable then Some(spkpr) else None, None, None).value
    ensures r.variable == variable && (!variable ==> r.stride == stride)
  {
    if variable then VariableStrides(spkpr) else UniformStrides(numKeys, stride)
  }

  /** Passing a well-formed KJT's own stride arguments rebuilds its stride fields. */
  lemma PassOwnStrides(c: Content)
    requires WellFormed(c)
    ensures PassStrides(|c.keys|, c.strides.variable, c.strides.stride, c.strides.stridePerKeyPerRank) == c.strides
  {
  }

  /** The stride fields of keys `a..b` are valid, and their per-key strides are the window. */
  lemma StridesOfWindow(c: Content, a: int, b: int)
    requires WellFormed(c) && 0 <= a <= b <= |c.keys|
    ensures var s := PassStrides(b - a, c.strides.variable, c.strides.stride, c.strides.stridePerKeyPerRank[a..b]);
      StridesValid(b - a, s) && s.stridePerKey == c.strides.stridePerKey[a..b]
  {
    var spkpr := c.strides.stridePerKeyPerRank;
    if c.strides.variable {
      assert PerKeySums(spkpr[a..b]) == PerKeySums(spkpr)[a..b];
    } else {
      UniformLayout(|c.keys|, c.strides.stride);
      UniformLayout(b - a, c.strides.stride);
      assert Repeat(c.strides.stride, |c.keys|)[a..b] == Repeat(c.strides.stride, b - a);
      UniformStridesValid(b - a, c.strides.stride);
    }
  }

  // ---------------------------------------------------------------- split

  /**
   * Keys `a..b` of a KJT: the key window, the values between the window's
   * value offsets, the rows between its row offsets, and the stride arguments
   * of the window.
   */
  function SplitContent(c: Content, a: int, b: int): Content
    requires WellFormed(c) && 0 <= a <= b <= |c.keys|
  {
    var vo := ValueOffsets(c);
    var ro := RowOffsets(c);
    assert 0 <= vo[a] <= vo[b] <= |c.values| && 0 <= ro[a] <= ro[b] <= |c.lengths| by {
      OffsetsAt(c, a, b);
    }
    Content(c.keys[a..b], c.values[vo[a]..vo[b]],
            if c.weights.Some? then Some(c.weights.value[vo[a]..vo[b]]) else None,
            c.lengths[ro[a]..ro[b]],
            PassStrides(b - a, c.strides.variable, c.strides.stride, c.strides.stridePerKeyPerRank[a..b]))
  }

  /** The rows of a window of keys: non-negative, cut by the window of strides, summing to the window's values. */
  lemma WindowRows(l: seq<int>, spk: seq<int>, a: int, b: int)
    requires AllNonNeg(l) && Partitions(spk, |l|) && 0 <= a <= b <= |spk|
    ensures 0 <= CompleteCumsum(spk)[a] <= CompleteCumsum(spk)[b] <= |l|
    ensures var w := l[CompleteCumsum(spk)[a]..CompleteCumsum(spk)[b]];
      && AllNonNeg(w)
      && Partitions(spk[a..b], |w|)
      && BlockSums(w, spk[a..b]) == BlockSums(l, spk)[a..b]
      && Sum(w) == CompleteCumsum(BlockSums(l, spk))[b] - CompleteCumsum(BlockSums(l, spk))[a]
  {
    var ro := CompleteCumsum(spk);
    BlockSumsWindow(l, spk, a, b);
    var w := l[ro[a]..ro[b]];
    assert forall i :: 0 <= i < |w| ==> w[i] == l[ro[a] + i];
    BlockSumsTotal(w, spk[a..b]);
    WindowSum(BlockSums(l, spk), a, b);
  }

  /** A window of keys is a valid KJT whose per-key lengths are the window of the per-key lengths. */
  lemma SplitContentWellFormed(c: Content, a: int, b: int)
    requires WellFormed(c) && 0 <= a <= b <= |c.keys|
    ensures WellFormed(SplitContent(c, a, b))
    ensures KeyLengths(SplitContent(c, a, b)) == KeyLengths(c)[a..b]
  {
    var d := SplitContent(c, a, b);
    var spk := c.strides.stridePerKey;
    OffsetsAt(c, a, b);
    StridesOfWindow(c, a, b);
    WindowRows(c.lengths, spk, a, b);
    assert KeyLengths(c) == BlockSums(c.lengths, spk);
    assert WellFormed(d);
  }

  /** Splitting off all keys at once changes nothing (the `segment == len(keys)` shortcut is sound). */
  lemma SplitWhole(c: Content)
    requires WellFormed(c)
    ensures SplitContent(c, 0, |c.keys|) == c
  {
    OffsetBounds(c);
    PassOwnStrides(c);
    assert c.keys[0..|c.keys|] == c.keys;
    assert c.values[0..|c.values|] == c.values;
    assert c.lengths[0..|c.lengths|] == c.lengths;
    assert c.strides.stridePerKeyPerRank[0..|c.keys|] == c.strides.stridePerKeyPerRank;
    if c.weights.Some? {
      assert c.weights.value[0..|c.values|] == c.weights.value;
    }
  }

  // ---------------------------------------------------------------- concat

  /** Two KJTs laid end to end, keyed by the first one's mode and stride. */
  function JoinContent(x: Content, y: Content): Content
  {
    Content(x.keys + y.keys, x.values + y.values,
            if x.weights.Some? && y.weights.Some? then Some(x.weights.value + y.weights.value) else None,
            x.lengths + y.lengths,
            PassStrides(|x.keys| + |y.keys|, x.strides.variable, x.strides.stride,
                        x.strides.stridePerKeyPerRank + y.strides.stridePerKeyPerRank))
  }

  lemma SliceJoin<T>(s: seq<T>, i: int, j: int, k: int)
    requires 0 <= i <= j <= k <= |s|
    ensures s[i..j] + s[j..k] == s[i..k]
  {
  }

  /** The buffers of adjacent windows of keys, laid end to end, are the buffers of the spanning window. */
  lemma SplitJoinBuffers(c: Content, a: int, m: int, b: int)
    requires WellFormed(c) && 0 <= a <= m <= b <= |c.keys|
    ensures var x := SplitContent(c, a, m); var y := SplitContent(c, m, b); var z := SplitContent(c, a, b);
      && x.keys + y.keys == z.keys && x.values + y.values == z.values && x.lengths + y.lengths == z.lengths
      && (if x.weights.Some? && y.weights.Some? then Some(x.weights.value + y.weights.value) else None) == z.weights
  {
    OffsetsAt(c, a, m);
    OffsetsAt(c, m, b);
    var vo := ValueOffsets(c);
    var ro := RowOffsets(c);
    SliceJoin(c.keys, a, m, b);
    SliceJoin(c.values, vo[a], vo[m], vo[b]);
    SliceJoin(c.lengths, ro[a], ro[m], ro[b]);
    if c.weights.Some? {
      SliceJoin(c.weights.value, vo[a], vo[m], vo[b]);
    }
  }

  /** Adjacent windows of keys join into the window that spans both. */
  lemma SplitJoin(c: Content, a: int, m: int, b: int)
    requires WellFormed(c) && 0 <= a <= m <= b <= |c.keys|
    ensures JoinContent(SplitContent(c, a, m), SplitContent(c, m, b)) == SplitContent(c, a, b)
  {
    SplitJoinBuffers(c, a, m, b);
    SliceJoin(c.strides.stridePerKeyPerRank, a, m, b);
  }

  /** Joined stride fields are valid and their per-key strides are laid end to end. */
  lemma JoinStrides(x: Content, y: Content)
    requires WellFormed(x) && WellFormed(y)
    requires x.strides.variable == y.strides.variable
    requires !x.strides.variable ==> x.strides.stride == y.strides.stride
    ensures StridesValid(|x.keys| + |y.keys|, JoinContent(x, y).strides)
    ensures JoinContent(x, y).strides.stridePerKey == x.strides.stridePerKey + y.strides.stridePerKey
  {
    var s := x.strides.stride;
    if x.strides.variable {
      assert PerKeySums(x.strides.stridePerKeyPerRank + y.strides.stridePerKeyPerRank)
          == PerKeySums(x.strides.stridePerKeyPerRank) + PerKeySums(y.strides.stridePerKeyPerRank);
    } else {
      assert x.strides == UniformStrides(|x.keys|, s);
      assert y.strides == UniformStrides(|y.keys|, s);
      UniformLayout(|x.keys|, s);
      UniformLayout(|y.keys|, s);
      UniformLayout(|x.keys| + |y.keys|, s);
      assert Repeat([s], |x.keys|) + Repeat([s], |y.keys|) == Repeat([s], |x.keys| + |y.keys|);
      assert Repeat(s, |x.keys|) + Repeat(s, |y.keys|) == Repeat(s, |x.keys| + |y.keys|);
      UniformStridesValid(|x.keys| + |y.keys|, s);
    }
  }

  /** Rows laid end to end keep their blocks: the joined block sums are the two lists of block sums. */
  lemma JoinRows(lx: seq<int>, sx: seq<int>, ly: seq<int>, sy: seq<int>)
    requires AllNonNeg(lx) && Partitions(sx, |lx|) && AllNonNeg(ly) && Partitions(sy, |ly|)
    ensures AllNonNeg(lx + ly) && Partitions(sx + sy, |lx + ly|)
    ensures BlockSums(lx + ly, sx + sy) == BlockSums(lx, sx) + BlockSums(ly, sy)
    ensures Sum(lx + ly) == Sum(lx) + Sum(ly)
  {
    BlockSumsConcat(lx, sx, ly, sy);
    SumConcat(lx, ly);
    var l := lx + ly;
    assert forall i :: 0 <= i < |l| ==> l[i] == if i < |lx| then lx[i] else ly[i - |lx|];
  }

  /** Two compatible KJTs join into a valid one whose per-key lengths are laid end to end. */
  lemma JoinWellFormed(x: Content, y: Content)
    requires WellFormed(x) && WellFormed(y)
    requires x.strides.variable == y.strides.variable
    requires !x.strides.variable ==> x.strides.stride == y.strides.stride
    requires x.weights.Some? == y.weights.Some?
    ensures WellFormed(JoinContent(x, y))
    ensures KeyLengths(JoinContent(x, y)) == KeyLengths(x) + KeyLengths(y)
  {
    var j := JoinContent(x, y);
    JoinStrides(x, y);
    JoinRows(x.lengths, x.strides.stridePerKey, y.lengths, y.strides.stridePerKey);
    assert WellFormed(j);
    assert KeyLengths(j) == BlockSums(j.lengths, j.strides.stridePerKey);
  }

  function KeysOf(cs: seq<Content>): (r: seq<seq<string>>)
    ensures |r| == |cs|
  {
    seq(|cs|, i requires 0 <= i < |cs| => cs[i].keys)
  }

  function ValuesOf(cs: seq<Content>): (r: seq<seq<int>>)
    ensures |r| == |cs|
  {
    seq(|cs|, i requires 0 <= i < |cs| => cs[i].values)
  }

  /** The weight buffers of a list of KJTs (an unweighted one contributes nothing). */
  function WeightsOf(cs: seq<Content>): (r: seq<seq<int>>)
    ensures |r| == |cs|
  {
    seq(|cs|, i requires 0 <= i < |cs| => if cs[i].weights.Some? then cs[i].weights.value else [])
  }

  function LengthsOf(cs: seq<Content>): (r: seq<seq<int>>)
    ensures |r| == |cs|
  {
    seq(|cs|, i requires 0 <= i < |cs| => cs[i].lengths)
  }

  function RanksOf(cs: seq<Content>): (r: seq<seq<seq<int>>>)
    ensures |r| == |cs|
  {
    seq(|cs|, i requires 0 <= i < |cs| => cs[i].strides.stridePerKeyPerRank)
  }

  /** KJTs that `concat` accepts: one stride mode, one weightedness, and in uniform mode one stride. */
  predicate Compatible(cs: seq<Content>)
  {
    forall i :: 0 <= i < |cs| ==>
      && cs[i].strides.variable == cs[0].strides.variable
      && cs[i].weights.Some? == cs[0].weights.Some?
      && (!cs[0].strides.variable ==> cs[i].strides.stride == cs[0].strides.stride)
  }

  /**
   * `KeyedJaggedTensor.concat` on contents: keys, values, weights, lengths and
   * `stride_per_key_per_rank` laid end to end; the first KJT decides the
   * weightedness and, in uniform mode, the stride.
   */
  function ConcatContent(cs: seq<Content>): Content
    requires |cs| > 0
  {
    var keys := Flatten(KeysOf(cs));
    Content(keys, Flatten(ValuesOf(cs)),
            if cs[0].weights.Some? then Some(Flatten(WeightsOf(cs))) else None,
            Flatten(LengthsOf(cs)),
            PassStrides(|keys|, cs[0].strides.variable, cs[0].strides.stride, Flatten(RanksOf(cs))))
  }

  /** Concatenating one KJT gives it back. */
  lemma ConcatOne(c: Content)
    requires WellFormed(c)
    ensures ConcatContent([c]) == c
  {
    FlattenOne(c.keys);
    FlattenOne(c.values);
    FlattenOne(c.lengths);
    FlattenOne(c.strides.stridePerKeyPerRank);
    if c.weights.Some? {
      FlattenOne(c.weights.value);
    }
    PassOwnStrides(c);
  }

  /** Concatenating n compatible KJTs is concatenating the first n - 1 and joining the last. */
  lemma ConcatStep(cs: seq<Content>)
    requires |cs| >= 2 && Compatible(cs)
    ensures ConcatContent(cs) == JoinContent(ConcatContent(cs[..|cs| - 1]), cs[|cs| - 1])
  {
    var n := |cs|;
    var p := cs[..n - 1];
    assert KeysOf(p) == KeysOf(cs)[..n - 1];
    assert ValuesOf(p) == ValuesOf(cs)[..n - 1];
    assert WeightsOf(p) == WeightsOf(cs)[..n - 1];
    assert LengthsOf(p) == LengthsOf(cs)[..n - 1];
    assert RanksOf(p) == RanksOf(cs)[..n - 1];
    assert p[0] == cs[0];
  }

  /** The per-key lengths of each KJT of a list. */
  function KeyLengthsOf(cs: seq<Content>): (r: seq<seq<int>>)
    requires forall i :: 0 <= i < |cs| ==> WellFormed(cs[i])
    ensures |r| == |cs|
  {
    seq(|cs|, i requires 0 <= i < |cs| => KeyLengths(cs[i]))
  }

  /** The first n - 1 of n compatible KJTs are compatible, and their concatenation is compatible with the last. */
  lemma ConcatFront(cs: seq<Content>)
    requires |cs| >= 2 && Compatible(cs)
    requires forall i :: 0 <= i < |cs| ==> WellFormed(cs[i])
    ensures var p := cs[..|cs| - 1];
      && Compatible(p) && (forall i :: 0 <= i < |p| ==> WellFormed(p[i]))
      && ConcatContent(p).strides.variable == cs[|cs| - 1].strides.variable
      && (!ConcatContent(p).strides.variable ==> ConcatContent(p).strides.stride == cs[|cs| - 1].strides.stride)
      && ConcatContent(p).weights.Some? == cs[|cs| - 1].weights.Some?
  {
    var p := cs[..|cs| - 1];
    assert p[0] == cs[0];
    forall i | 0 <= i < |p|
      ensures p[i] == cs[i]
    {
    }
  }

  /** The per-key lengths of n KJTs, laid end to end, are those of the first n - 1 followed by the last. */
  lemma KeyLengthsOfFront(cs: seq<Content>)
    requires |cs| >= 1 && forall i :: 0 <= i < |cs| ==> WellFormed(cs[i])
    ensures Flatten(KeyLengthsOf(cs)) == Flatten(KeyLengthsOf(cs[..|cs| - 1])) + KeyLengths(cs[|cs| - 1])
  {
    assert KeyLengthsOf(cs[..|cs| - 1]) == KeyLengthsOf(cs)[..|cs| - 1];
  }

  lemma ConcatWellFormedOne(cs: seq<Content>)
    requires |cs| == 1 && WellFormed(cs[0])
    ensures WellFormed(ConcatContent(cs))
    ensures KeyLengths(ConcatContent(cs)) == Flatten(KeyLengthsOf(cs))
  {
    ConcatOne(cs[0]);
    FlattenOne(KeyLengths(cs[0]));
    assert cs == [cs[0]];
    assert KeyLengthsOf(cs) == [KeyLengths(cs[0])];
  }

  /** Compatible KJTs concatenate into a valid KJT whose per-key lengths are theirs laid end to end. */
  lemma {:induction false} ConcatWellFormed(cs: seq<Content>)
    requires |cs| > 0 && Compatible(cs)
    requires forall i :: 0 <= i < |cs| ==> WellFormed(cs[i])
    ensures WellFormed(ConcatContent(cs))
    ensures KeyLengths(ConcatContent(cs)) == Flatten(KeyLengthsOf(cs))
  {
    var n := |cs|;
    if n == 1 {
      ConcatWellFormedOne(cs);
    } else {
      var p := cs[..n - 1];
      ConcatFront(cs);
      ConcatStep(cs);
      ConcatWellFormed(p);
      JoinWellFormed(ConcatContent(p), cs[n - 1]);
      KeyLengthsOfFront(cs);
    }
  }

  const EmptyListMessage: string := "Can't concat empty KJT list"
  const MixedModesMessage: string := "variable stride per key must be consistent for all KJTs"
  const MixedWeightsMessage: string := "Can't merge weighted KJT with unweighted KJT"
  const MixedStridesMessage: string := "strides must be consistent for all KJTs"

  /** KJT j has the first one's weightedness and, in uniform mode, its stride. */
  predicate MatchesFirst(cs: seq<Content>, j: int)
    requires 0 <= j < |cs|
  {
    && cs[j].weights.Some? == cs[0].weights.Some?
    && (!cs[0].strides.variable ==> cs[j].strides.stride == cs[0].strides.stride)
  }

  /** The per-KJT checks of the `concat` loop from KJT i on: the first one that fails. */
  function ConcatScan(cs: seq<Content>, i: int): Option<Error>
    requires 0 <= i <= |cs|
    decreases |cs| - i
  {
    if i == |cs| then None
    else if cs[i].weights.Some? != cs[0].weights.Some? then
      Some(ValueError(MixedWeightsMessage))
    else if !cs[0].strides.variable && cs[i].strides.stride != cs[0].strides.stride then
      Some(AssertionError(MixedStridesMessage))
    else ConcatScan(cs, i + 1)
  }

  /** The error `concat` raises, in the order it checks: an empty list, mixed stride modes, then KJT by KJT. */
  function ConcatCheck(cs: seq<Content>): Option<Error>
  {
    if cs == [] then Some(ValueError(EmptyListMessage))
    else if exists i :: 0 <= i < |cs| && cs[i].strides.variable != cs[0].strides.variable then
      Some(AssertionError(MixedModesMessage))
    else ConcatScan(cs, 0)
  }

  /** The scan from KJT i passes exactly when every KJT from i on matches the first. */
  lemma {:induction false} ConcatScanPasses(cs: seq<Content>, i: int)
    requires 0 <= i <= |cs|
    ensures ConcatScan(cs, i).None? <==> forall j :: i <= j < |cs| ==> MatchesFirst(cs, j)
    decreases |cs| - i
  {
    if i < |cs| {
      ConcatScanPasses(cs, i + 1);
      assert ConcatScan(cs, i).None? <==> MatchesFirst(cs, i) && ConcatScan(cs, i + 1).None?;
      if MatchesFirst(cs, i) && ConcatScan(cs, i + 1).None? {
        forall j | i <= j < |cs|
          ensures MatchesFirst(cs, j)
        {
          if j > i {
            assert i + 1 <= j;
          }
        }
      }
    }
  }

  /** When KJTs `i..k` match the first, the scan from i reaches k with nothing raised. */
  lemma {:induction false} ConcatScanSkips(cs: seq<Content>, i: int, k: int)
    requires 0 <= i <= k <= |cs| && forall j :: i <= j < k ==> MatchesFirst(cs, j)
    ensures ConcatScan(cs, i) == ConcatScan(cs, k)
    decreases k - i
  {
    if i < k {
      assert MatchesFirst(cs, i);
      ConcatScanSkips(cs, i + 1, k);
    }
  }

  /** `concat` raises nothing exactly when the list is non-empty and compatible. */
  lemma ConcatCheckPasses(cs: seq<Content>)
    ensures ConcatCheck(cs).None? <==> |cs| > 0 && Compatible(cs)
  {
    if cs != [] {
      ConcatScanPasses(cs, 0);
      if ConcatCheck(cs).None? {
        assert forall i :: 0 <= i < |cs| ==> cs[i].strides.variable == cs[0].strides.variable;
        forall j | 0 <= j < |cs|
          ensures cs[j].strides.variable == cs[0].strides.variable && MatchesFirst(cs, j)
        {
        }
      }
      if Compatible(cs) {
        assert forall j :: 0 <= j < |cs| ==> MatchesFirst(cs, j);
        assert !exists i :: 0 <= i < |cs| && cs[i].strides.variable != cs[0].strides.variable;
        assert ConcatScan(cs, 0).None?;
        assert ConcatCheck(cs) == ConcatScan(cs, 0);
      }
    }
  }

  /** One more KJT in the prefix adds its buffers at the end of each concatenation. */
  lemma ConcatPrefixStep(cs: seq<Content>, i: int)
    requires 0 <= i < |cs|
    ensures Flatten(KeysOf(cs[..i + 1])) == Flatten(KeysOf(cs[..i])) + cs[i].keys
    ensures Flatten(ValuesOf(cs[..i + 1])) == Flatten(ValuesOf(cs[..i])) + cs[i].values
    ensures Flatten(WeightsOf(cs[..i + 1])) ==
              Flatten(WeightsOf(cs[..i])) + (if cs[i].weights.Some? then cs[i].weights.value else [])
    ensures Flatten(LengthsOf(cs[..i + 1])) == Flatten(LengthsOf(cs[..i])) + cs[i].lengths
    ensures Flatten(RanksOf(cs[..i + 1])) == Flatten(RanksOf(cs[..i])) + cs[i].strides.stridePerKeyPerRank
  {
    var p, q := cs[..i + 1], cs[..i];
    assert p[..i] == q;
    assert KeysOf(p)[..i] == KeysOf(q);
    assert ValuesOf(p)[..i] == ValuesOf(q);
    assert WeightsOf(p)[..i] == WeightsOf(q);
    assert LengthsOf(p)[..i] == LengthsOf(q);
    assert RanksOf(p)[..i] == RanksOf(q);
  }

  /** The per-key lengths of one more KJT follow those of the prefix. */
  lemma KeyLengthsPrefixStep(cs: seq<Content>, i: int)
    requires 0 <= i < |cs| && forall j :: 0 <= j < |cs| ==> WellFormed(cs[j])
    ensures Flatten(KeyLengthsOf(cs[..i + 1])) == Flatten(KeyLengthsOf(cs[..i])) + KeyLengths(cs[i])
  {
    var p := cs[..i + 1];
    assert p[..i] == cs[..i];
    KeyLengthsOfFront(p);
  }

  /**
   * The lists the `concat` loop builds: keys, values, lengths, the weights
   * when the first KJT is weighted, the per-rank strides in variable-stride
   * mode, and in uniform mode the stride seen first.
   */
  datatype ConcatLists = ConcatLists(keys: seq<string>, values: seq<int>, weights: seq<int>, lengths: seq<int>,
                                     stridePerKeyPerRank: seq<seq<int>>, stride: Option<int>)

  /** One round of the concatenation loop: append `c`'s buffers to `g`, and take the first stride seen. */
  function AppendRound(g: ConcatLists, c: Content, isWeighted: bool, variable: bool): ConcatLists
  {
    ConcatLists(g.keys + c.keys, g.values + c.values,
                if isWeighted && c.weights.Some? then g.weights + c.weights.value else g.weights,
                g.lengths + c.lengths,
                if variable then g.stridePerKeyPerRank + c.strides.stridePerKeyPerRank else g.stridePerKeyPerRank,
                if !variable && g.stride.None? then Some(c.strides.stride) else g.stride)
  }

  /** The lists after the `concat` loop has appended the first n KJTs. */
  function ListsAfter(cs: seq<Content>, n: int): ConcatLists
    requires 0 <= n <= |cs| && |cs| > 0
  {
    if n == 0 then ConcatLists([], [], [], [], [], None)
    else AppendRound(ListsAfter(cs, n - 1), cs[n - 1], cs[0].weights.Some?, cs[0].strides.variable)
  }

  /** Appending KJT by KJT lays the keys, values and lengths end to end, as `ConcatContent` does. */
  lemma {:induction false} ListsAfterBuffers(cs: seq<Content>, n: int)
    requires 0 <= n <= |cs| && |cs| > 0
    ensures ListsAfter(cs, n).keys == Flatten(KeysOf(cs[..n]))
    ensures ListsAfter(cs, n).values == Flatten(ValuesOf(cs[..n]))
    ensures ListsAfter(cs, n).lengths == Flatten(LengthsOf(cs[..n]))
  {
    if n == 0 {
      assert cs[..0] == [];
    } else {
      ListsAfterBuffers(cs, n - 1);
      ConcatPrefixStep(cs, n - 1);
    }
  }

  /** Among matching KJTs, the weights and strides appended are those `ConcatContent` lays end to end. */
  lemma {:induction false} ListsAfterModes(cs: seq<Content>, n: int)
    requires 0 <= n <= |cs| && |cs| > 0 && forall j :: 0 <= j < n ==> MatchesFirst(cs, j)
    ensures cs[0].weights.Some? ==> ListsAfter(cs, n).weights == Flatten(WeightsOf(cs[..n]))
    ensures cs[0].strides.variable ==> ListsAfter(cs, n).stridePerKeyPerRank == Flatten(RanksOf(cs[..n]))
    ensures !cs[0].strides.variable ==> ListsAfter(cs, n).stride == if n == 0 then None else Some(cs[0].strides.stride)
  {
    if n == 0 {
      assert cs[..0] == [];
    } else {
      ListsAfterModes(cs, n - 1);
      ConcatPrefixStep(cs, n - 1);
      assert MatchesFirst(cs, n - 1);
    }
  }

  /** The `length_per_key` the `concat` loop builds from the first n cached per-key lengths. */
  function LengthPerKeyAfter(cached: seq<Option<seq<int>>>, n: int): Option<seq<int>>
    requires 0 <= n <= |cached|
  {
    if n == 0 then Some([])
    else
      var l := LengthPerKeyAfter(cached, n - 1);
      if cached[n - 1].None? || l.None? then None else Some(l.value + cached[n - 1].value)
  }

  /** The per-key lengths are passed on exactly when all are cached, and they are those of the concatenation. */
  lemma {:induction false} LengthPerKeyAfterFlatten(cs: seq<Content>, cached: seq<Option<seq<int>>>, n: int)
    requires 0 <= n <= |cs| == |cached| && forall j :: 0 <= j < |cs| ==> WellFormed(cs[j])
    requires forall j :: 0 <= j < |cs| ==> cached[j].Some? ==> cached[j].value == KeyLengths(cs[j])
    ensures LengthPerKeyAfter(cached, n).Some? <==> forall j :: 0 <= j < n ==> cached[j].Some?
    ensures LengthPerKeyAfter(cached, n).Some? ==> LengthPerKeyAfter(cached, n).value == Flatten(KeyLengthsOf(cs[..n]))
  {
    if n == 0 {
      assert cs[..0] == [];
    } else {
      LengthPerKeyAfterFlatten(cs, cached, n - 1);
      assert (forall j :: 0 <= j < n ==> cached[j].Some?) <==>
             (forall j :: 0 <= j < n - 1 ==> cached[j].Some?) && cached[n - 1].Some?;
      if LengthPerKeyAfter(cached, n).Some? {
        KeyLengthsPrefixStep(cs, n - 1);
      }
    }
  }

  /** The pieces `split(segments)` returns: piece i holds keys `C[i]..C[i+1]` for the cumsum C of the segments. */
  function SplitAll(c: Content, segments: seq<int>): (r: seq<Content>)
    requires WellFormed(c) && AllNonNeg(segments) && Sum(segments) <= |c.keys|
    ensures |r| == |segments|
  {
    var bounds := CompleteCumsum(segments);
    assert forall i, j :: 0 <= i <= j <= |segments| ==> 0 <= bounds[i] <= bounds[j] <= Sum(segments) by {
      CumsumBounds(segments);
    }
    seq(|segments|, i requires 0 <= i < |segments| => SplitContent(c, bounds[i], bounds[i + 1]))
  }

  /** The prefix sums of a prefix are a prefix of the prefix sums. */
  lemma CumsumPrefix(s: seq<int>, n: int, i: int)
    requires 0 <= i <= n <= |s|
    ensures CompleteCumsum(s[..n])[i] == CompleteCumsum(s)[i]
  {
    assert s[..n][..i] == s[..i];
  }

  /** The pieces for all but the last segment, and the last piece, of a split. */
  lemma SplitAllFront(c: Content, segments: seq<int>)
    requires WellFormed(c) && AllNonNeg(segments) && Sum(segments) <= |c.keys| && |segments| >= 1
    ensures var front := segments[..|segments| - 1];
      && AllNonNeg(front) && 0 <= Sum(front) <= Sum(segments)
      && SplitAll(c, front) == SplitAll(c, segments)[..|segments| - 1]
      && SplitAll(c, segments)[|segments| - 1] == SplitContent(c, Sum(front), Sum(segments))
  {
    var n := |segments|;
    var front := segments[..n - 1];
    CumsumShape(segments);
    SumStep(segments, n - 1);
    assert segments[..n] == segments;
    SumNonNeg(front);
    forall i | 0 <= i < n - 1
      ensures SplitAll(c, front)[i] == SplitAll(c, segments)[i]
    {
      CumsumPrefix(segments, n - 1, i);
      CumsumPrefix(segments, n - 1, i + 1);
    }
  }

  /** One more segment adds the piece between the last two prefix sums. */
  lemma SplitAllStep(c: Content, segments: seq<int>, i: int)
    requires WellFormed(c) && AllNonNeg(segments) && 0 <= i < |segments|
    requires CompleteCumsum(segments)[i + 1] <= |c.keys|
    ensures var b := CompleteCumsum(segments);
      && 0 <= b[i] <= b[i + 1]
      && SplitAll(c, segments[..i + 1]) == SplitAll(c, segments[..i]) + [SplitContent(c, b[i], b[i + 1])]
  {
    var b := CompleteCumsum(segments);
    var prefix := segments[..i + 1];
    assert prefix[..i] == segments[..i];
    CumsumAt(segments, i, i + 1);
    SumStep(segments, i);
    SplitAllFront(c, prefix);
    var next := SplitAll(c, prefix);
    assert next == next[..i] + [next[i]];
  }

  /** The pieces of a split share the stride mode, weightedness and stride of the KJT. */
  lemma SplitAllCompatible(c: Content, segments: seq<int>)
    requires WellFormed(c) && AllNonNeg(segments) && Sum(segments) <= |c.keys|
    ensures Compatible(SplitAll(c, segments))
  {
    var pieces := SplitAll(c, segments);
    forall i | 0 <= i < |pieces|
      ensures pieces[i].strides.variable == c.strides.variable && pieces[i].weights.Some? == c.weights.Some?
      ensures !c.strides.variable ==> pieces[i].strides.stride == c.strides.stride
    {
    }
  }

  lemma SplitOneSegment(c: Content, segments: seq<int>)
    requires WellFormed(c) && AllNonNeg(segments) && Sum(segments) <= |c.keys| && |segments| == 1
    ensures 0 <= Sum(segments)
    ensures ConcatContent(SplitAll(c, segments)) == SplitContent(c, 0, Sum(segments))
  {
    SumNonNeg(segments);
    CumsumShape(segments);
    assert SplitAll(c, segments) == [SplitContent(c, 0, Sum(segments))];
    SplitContentWellFormed(c, 0, Sum(segments));
    ConcatOne(SplitContent(c, 0, Sum(segments)));
  }

  /**
   * The pieces of a split are consecutive: concatenating them gives back the
   * keys they cover, and with segments summing to the key count, the KJT itself.
   */
  lemma {:induction false} SplitThenConcat(c: Content, segments: seq<int>)
    requires WellFormed(c) && AllNonNeg(segments) && Sum(segments) <= |c.keys| && |segments| > 0
    ensures 0 <= Sum(segments)
    ensures ConcatContent(SplitAll(c, segments)) == SplitContent(c, 0, Sum(segments))
    ensures Sum(segments) == |c.keys| ==> ConcatContent(SplitAll(c, segments)) == c
  {
    var n := |segments|;
    var pieces := SplitAll(c, segments);
    var front := segments[..n - 1];
    SumNonNeg(segments);
    SplitAllFront(c, segments);
    if n == 1 {
      SplitOneSegment(c, segments);
    } else {
      SplitAllCompatible(c, segments);
      ConcatStep(pieces);
      SplitThenConcat(c, front);
      SplitJoin(c, 0, Sum(front), Sum(segments));
      calc {
        ConcatContent(pieces);
        JoinContent(ConcatContent(pieces[..n - 1]), pieces[n - 1]);
        { assert pieces[..n - 1] == SplitAll(c, front); }
        JoinContent(SplitContent(c, 0, Sum(front)), SplitContent(c, Sum(front), Sum(segments)));
        SplitContent(c, 0, Sum(segments));
      }
    }
    if Sum(segments) == |c.keys| {
      SplitWhole(c);
    }
  }

  // ---------------------------------------------------------------- permute

  /**
   * `KeyedJaggedTensor.permute(indices)` on contents: key i of the result is
   * key `indices[i]`; its element block and its row block are gathered in that
   * order, and so are the per-rank strides.
   */
  function PermuteContent(c: Content, idx: seq<int>): Content
    requires WellFormed(c) && InRange(idx, |c.keys|)
  {
    var kl := KeyLengths(c);
    Content(Pick(c.keys, idx), Gather(c.values, kl, idx),
            if c.weights.Some? then Some(Gather(c.weights.value, kl, idx)) else None,
            Gather(c.lengths, c.strides.stridePerKey, idx),
            PassStrides(|idx|, c.strides.variable, c.strides.stride, Pick(c.strides.stridePerKeyPerRank, idx)))
  }

  /** The stride fields of a permuted KJT are valid and its per-key strides are gathered by the indices. */
  lemma PermuteStrides(c: Content, idx: seq<int>)
    requires WellFormed(c) && InRange(idx, |c.keys|)
    ensures var s := PassStrides(|idx|, c.strides.variable, c.strides.stride, Pick(c.strides.stridePerKeyPerRank, idx));
      StridesValid(|idx|, s) && s.stridePerKey == Pick(c.strides.stridePerKey, idx)
  {
    var spkpr := c.strides.stridePerKeyPerRank;
    if c.strides.variable {
      assert PerKeySums(Pick(spkpr, idx)) == Pick(PerKeySums(spkpr), idx);
    } else {
      UniformLayout(|c.keys|, c.strides.stride);
      UniformLayout(|idx|, c.strides.stride);
      assert Pick(Repeat(c.strides.stride, |c.keys|), idx) == Repeat(c.strides.stride, |idx|);
      UniformStridesValid(|idx|, c.strides.stride);
    }
  }

  /** A permuted KJT is valid, and its per-key lengths are the per-key lengths gathered by the indices. */
  lemma PermuteWellFormed(c: Content, idx: seq<int>)
    requires WellFormed(c) && InRange(idx, |c.keys|)
    ensures WellFormed(PermuteContent(c, idx))
    ensures KeyLengths(PermuteContent(c, idx)) == Pick(KeyLengths(c), idx)
  {
    var d := PermuteContent(c, idx);
    var kl := KeyLengths(c);
    var spk := c.strides.stridePerKey;
    PermuteStrides(c, idx);
    GatherNonNeg(c.lengths, spk, idx);
    GatherBlocks(c.values, kl, idx);
    if c.weights.Some? {
      GatherBlocks(c.weights.value, kl, idx);
    }
    GatherBlockSums(c.lengths, spk, idx);
    assert WellFormed(d);
  }

  /** The identity permutation leaves a KJT unchanged. */
  lemma PermuteIdentity(c: Content)
    requires WellFormed(c)
    ensures InRange(Range(|c.keys|), |c.keys|)
    ensures PermuteContent(c, Range(|c.keys|)) == c
  {
    var kl := KeyLengths(c);
    var ids := Range(|c.keys|);
    GatherIdentity(c.values, kl);
    GatherIdentity(c.lengths, c.strides.stridePerKey);
    if c.weights.Some? {
      GatherIdentity(c.weights.value, kl);
    }
    assert Pick(c.keys, ids) == c.keys;
    assert Pick(c.strides.stridePerKeyPerRank, ids) == c.strides.stridePerKeyPerRank;
    PassOwnStrides(c);
  }

  /** Two permutes in a row are one permute by the composed indices. */
  lemma PermuteCompose(c: Content, p: seq<int>, q: seq<int>)
    requires WellFormed(c) && InRange(p, |c.keys|) && InRange(q, |p|)
    ensures WellFormed(PermuteContent(c, p)) && InRange(Pick(p, q), |c.keys|)
    ensures PermuteContent(PermuteContent(c, p), q) == PermuteContent(c, Pick(p, q))
  {
    var kl := KeyLengths(c);
    var spk := c.strides.stridePerKey;
    PermuteWellFormed(c, p);
    PermuteStrides(c, p);
    GatherCompose(c.values, kl, p, q);
    GatherCompose(c.lengths, spk, p, q);
    if c.weights.Some? {
      GatherCompose(c.weights.value, kl, p, q);
    }
    assert Pick(Pick(c.keys, p), q) == Pick(c.keys, Pick(p, q));
    assert Pick(Pick(c.strides.stridePerKeyPerRank, p), q) == Pick(c.strides.stridePerKeyPerRank, Pick(p, q));
  }

  /** Permuting by `p` and then by an inverse `q` of `p` gives the KJT back. */
  lemma PermuteInverse(c: Content, p: seq<int>, q: seq<int>)
    requires WellFormed(c) && InRange(p, |c.keys|) && InRange(q, |p|)
    requires Pick(p, q) == Range(|c.keys|)
    ensures WellFormed(PermuteContent(c, p))
    ensures PermuteContent(PermuteContent(c, p), q) == c
  {
    PermuteCompose(c, p, q);
    PermuteIdentity(c);
  }

  // ---------------------------------------------------------------- key lookup

  /**
   * `kjt[key]` for the key at position i: the values and weights between the
   * key's value offsets (element space) and the lengths between its row
   * offsets (row space).
   */
  function KeyJt(c: Content, i: int): Jt
    requires WellFormed(c) && 0 <= i < |c.keys|
  {
    var vo := ValueOffsets(c);
    var ro := RowOffsets(c);
    assert 0 <= vo[i] <= vo[i + 1] <= |c.values| && 0 <= ro[i] <= ro[i + 1] <= |c.lengths| by {
      OffsetsAt(c, i, i + 1);
    }
    Jt(c.values[vo[i]..vo[i + 1]],
       if c.weights.Some? then Some(c.weights.value[vo[i]..vo[i + 1]]) else None,
       c.lengths[ro[i]..ro[i + 1]])
  }

  /** A valid jagged tensor: non-negative rows covering the values, weights parallel to them. */
  predicate JtValid(j: Jt)
  {
    AllNonNeg(j.lengths) && Sum(j.lengths) == |j.values| && (j.weights.Some? ==> |j.weights.value| == |j.values|)
  }

  /**
   * Key i's tensor is block i of the values (cut by the per-key lengths) and
   * block i of the rows (cut by the per-key strides); it is valid and has
   * `stride_per_key[i]` rows.
   */
  lemma KeyJtBlocks(c: Content, i: int)
    requires WellFormed(c) && 0 <= i < |c.keys|
    ensures KeyJt(c, i).values == Blocks(c.values, KeyLengths(c))[i]
    ensures c.weights.Some? ==> KeyJt(c, i).weights == Some(Blocks(c.weights.value, KeyLengths(c))[i])
    ensures c.weights.None? ==> KeyJt(c, i).weights.None?
    ensures KeyJt(c, i).lengths == Blocks(c.lengths, c.strides.stridePerKey)[i]
    ensures |KeyJt(c, i).lengths| == c.strides.stridePerKey[i]
    ensures JtValid(KeyJt(c, i))
  {
    var kl := KeyLengths(c);
    var spk := c.strides.stridePerKey;
    BlockAt(c.values, kl, i);
    BlockAt(c.lengths, spk, i);
    if c.weights.Some? {
      BlockAt(c.weights.value, kl, i);
    }
    BlockNonNeg(c.lengths, spk, i);
    assert kl[i] == Sum(Blocks(c.lengths, spk)[i]);
  }

  /** The value offsets of keys `a + j` and `a + j + 1`, in order and inside keys `a..b`. */
  lemma OffsetsAround(c: Content, a: int, b: int, j: int)
    requires WellFormed(c) && 0 <= a <= b <= |c.keys| && 0 <= j < b - a
    ensures var vo, ro := ValueOffsets(c), RowOffsets(c);
      && 0 <= vo[a] <= vo[a + j] <= vo[a + j + 1] <= vo[b] <= |c.values|
      && 0 <= ro[a] <= ro[a + j] <= ro[a + j + 1] <= ro[b] <= |c.lengths|
  {
    OffsetsAt(c, a, a + j);
    OffsetsAt(c, a + j, a + j + 1);
    OffsetsAt(c, a + j + 1, b);
  }

  /** Key j's values and weights in a window of keys are key `a + j`'s. */
  lemma SplitKeyValues(c: Content, a: int, b: int, j: int)
    requires WellFormed(c) && 0 <= a <= b <= |c.keys| && 0 <= j < b - a
    requires WellFormed(SplitContent(c, a, b)) && KeyLengths(SplitContent(c, a, b)) == KeyLengths(c)[a..b]
    ensures KeyJt(SplitContent(c, a, b), j).values == KeyJt(c, a + j).values
    ensures KeyJt(SplitContent(c, a, b), j).weights == KeyJt(c, a + j).weights
  {
    OffsetsAround(c, a, b, j);
    SliceOfWindow(c.values, KeyLengths(c), a, b, j);
    if c.weights.Some? {
      SliceOfWindow(c.weights.value, KeyLengths(c), a, b, j);
    }
  }

  /** Key j's rows in a window of keys are key `a + j`'s. */
  lemma SplitKeyRows(c: Content, a: int, b: int, j: int)
    requires WellFormed(c) && 0 <= a <= b <= |c.keys| && 0 <= j < b - a
    requires WellFormed(SplitContent(c, a, b))
    ensures KeyJt(SplitContent(c, a, b), j).lengths == KeyJt(c, a + j).lengths
  {
    StridesOfWindow(c, a, b);
    OffsetsAround(c, a, b, j);
    SliceOfWindow(c.lengths, c.strides.stridePerKey, a, b, j);
  }

  /** Key j of a window of keys is key `a + j` of the whole KJT. */
  lemma KeyJtOfSplit(c: Content, a: int, b: int, j: int)
    requires WellFormed(c) && 0 <= a <= b <= |c.keys| && 0 <= j < b - a
    ensures WellFormed(SplitContent(c, a, b))
    ensures KeyJt(SplitContent(c, a, b), j) == KeyJt(c, a + j)
  {
    SplitContentWellFormed(c, a, b);
    SplitKeyValues(c, a, b, j);
    SplitKeyRows(c, a, b, j);
  }

  /** Key j of a permuted KJT is key `indices[j]` of the original. */
  lemma KeyJtOfPermute(c: Content, idx: seq<int>, j: int)
    requires WellFormed(c) && InRange(idx, |c.keys|) && 0 <= j < |idx|
    ensures WellFormed(PermuteContent(c, idx))
    ensures KeyJt(PermuteContent(c, idx), j) == KeyJt(c, idx[j])
  {
    var d := PermuteContent(c, idx);
    var kl := KeyLengths(c);
    PermuteWellFormed(c, idx);
    PermuteStrides(c, idx);
    KeyJtBlocks(d, j);
    KeyJtBlocks(c, idx[j]);
    GatherBlocks(c.values, kl, idx);
    GatherBlocks(c.lengths, c.strides.stridePerKey, idx);
    if c.weights.Some? {
      GatherBlocks(c.weights.value, kl, idx);
    }
  }

  // ---------------------------------------------------------------- to_dict

  /**
   * `to_dict()` as the KJT's meaning: every key maps to the tensor of its last
   * position in `keys` (the loop over `enumerate(keys)` overwrites earlier
   * duplicates), exactly as `kjt[key]` answers.
   */
  function JtDictContent(c: Content): (r: map<string, Jt>)
    requires WellFormed(c)
    ensures forall key :: key in r <==> key in c.keys
  {
    var ipk := IndexPerKey(c.keys);
    map key | key in ipk :: KeyJt(c, ipk[key])
  }

  /**
   * The loop of `_maybe_compute_kjt_to_jt_dict` after its first n rounds: key
   * `keys[i]` is bound to the tensor of value block i, weight block i and row
   * block i, later rounds overwriting earlier ones.
   */
  function JtDictLoop(keys: seq<string>, vals: seq<seq<int>>, wts: Option<seq<seq<int>>>, rows: seq<seq<int>>, n: int)
    : map<string, Jt>
    requires 0 <= n <= |keys| && n <= |vals| && n <= |rows| && (wts.Some? ==> n <= |wts.value|)
  {
    if n == 0 then map[]
    else
      JtDictLoop(keys, vals, wts, rows, n - 1)[keys[n - 1] := Jt(vals[n - 1], if wts.Some? then Some(wts.value[n - 1]) else None, rows[n - 1])]
  }

  /** One more round of `enumerate(keys)` binds the next key to its position. */
  lemma IndexPerKeyStep(keys: seq<string>, n: int)
    requires 0 < n <= |keys|
    ensures IndexPerKey(keys[..n]) == IndexPerKey(keys[..n - 1])[keys[n - 1] := n - 1]
  {
    assert keys[..n][..n - 1] == keys[..n - 1];
  }

  /** After n rounds each key seen so far holds the blocks of its last position among the first n keys. */
  lemma {:induction false} JtDictLoopLastWins(keys: seq<string>, vals: seq<seq<int>>, wts: Option<seq<seq<int>>>, rows: seq<seq<int>>, n: int)
    requires 0 <= n <= |keys| && n <= |vals| && n <= |rows| && (wts.Some? ==> n <= |wts.value|)
    ensures var ipk := IndexPerKey(keys[..n]); var d := JtDictLoop(keys, vals, wts, rows, n);
      && (forall key :: key in d <==> key in ipk)
      && (forall key :: key in ipk ==> d[key] == Jt(vals[ipk[key]], if wts.Some? then Some(wts.value[ipk[key]]) else None, rows[ipk[key]]))
  {
    if n > 0 {
      JtDictLoopLastWins(keys, vals, wts, rows, n - 1);
      IndexPerKeyStep(keys, n);
      var ipk, ipk0 := IndexPerKey(keys[..n]), IndexPerKey(keys[..n - 1]);
      var d, d0 := JtDictLoop(keys, vals, wts, rows, n), JtDictLoop(keys, vals, wts, rows, n - 1);
      assert d == d0[keys[n - 1] := Jt(vals[n - 1], if wts.Some? then Some(wts.value[n - 1]) else None, rows[n - 1])];
      assert d.Keys == d0.Keys + {keys[n - 1]} == ipk.Keys;
      forall key | key in ipk
        ensures d[key] == Jt(vals[ipk[key]], if wts.Some? then Some(wts.value[ipk[key]]) else None, rows[ipk[key]])
      {
        if key != keys[n - 1] {
          assert ipk[key] == ipk0[key] && d[key] == d0[key];
        }
      }
    }
  }

  /** `torch.unbind(l.view(-1, stride))`, or the unbind of `l` itself when it is empty: the rows of the reshape. */
  function UnbindRows(l: seq<int>, stride: int): seq<seq<int>>
    requires |l| == 0 || (stride > 0 && |l| % stride == 0)
  {
    if |l| == 0 then []
    else
      assert Partitions(Repeat(stride, |l| / stride), |l|) by {
        SumRepeat(stride, |l| / stride);
      }
      Blocks(l, Repeat(stride, |l| / stride))
  }

  /** A uniform row layout is empty or reshapes into rows of `stride` entries. */
  lemma UniformReshapes(c: Content)
    requires WellFormed(c) && !c.strides.variable
    ensures |c.lengths| == 0 || (c.strides.stride > 0 && |c.lengths| % c.strides.stride == 0)
    ensures |c.lengths| > 0 ==> Repeat(c.strides.stride, |c.lengths| / c.strides.stride) == c.strides.stridePerKey
  {
    var k, s := |c.keys|, c.strides.stride;
    UniformLayout(k, s);
    SumRepeat(s, k);
    if |c.lengths| > 0 {
      assert s != 0;
      DivExactSwap(k, s);
    }
  }

  /**
   * `_maybe_compute_kjt_to_jt_dict` without a cache, as written: no per-key
   * lengths give `{}`; otherwise the values (and weights) are split by the
   * per-key lengths, the rows by the per-key strides or, in uniform mode, by
   * unbinding the `(-1, stride)` reshape, and key i reads entry i of each.
   * Unbinding empty lengths yields no rows at all, so the read raises.
   */
  function ToDictAsWritten(c: Content): Result<map<string, Jt>, Error>
    requires WellFormed(c)
  {
    var kl := KeyLengths(c);
    if kl == [] then Success(map[])
    else
      var rows := if c.strides.variable then Blocks(c.lengths, c.strides.stridePerKey)
                  else (UniformReshapes(c); UnbindRows(c.lengths, c.strides.stride));
      if |rows| < |c.keys| then Failure(IndexError)
      else
        Success(JtDictLoop(c.keys, Blocks(c.values, kl), WeightBlocks(c), rows, |c.keys|))
  }

  /** The weight blocks `to_dict` reads, one per key (None for an unweighted KJT). */
  function WeightBlocks(c: Content): (r: Option<seq<seq<int>>>)
    requires WellFormed(c)
    ensures c.weights.Some? <==> r.Some?
  {
    if c.weights.Some? then Some(Blocks(c.weights.value, KeyLengths(c))) else None
  }

  /** After the loop has run over all keys, each key holds the blocks of its last position. */
  lemma JtDictLoopFull(keys: seq<string>, vals: seq<seq<int>>, wts: Option<seq<seq<int>>>, rows: seq<seq<int>>)
    requires |keys| <= |vals| && |keys| <= |rows| && (wts.Some? ==> |keys| <= |wts.value|)
    ensures var ipk := IndexPerKey(keys); var d := JtDictLoop(keys, vals, wts, rows, |keys|);
      && d.Keys == ipk.Keys
      && (forall key :: key in ipk ==> d[key] == Jt(vals[ipk[key]], if wts.Some? then Some(wts.value[ipk[key]]) else None, rows[ipk[key]]))
  {
    var n := |keys|;
    assert keys[..n] == keys;
    JtDictLoopLastWins(keys, vals, wts, rows, n);
    assert IndexPerKey(keys[..n]) == IndexPerKey(keys);
  }

  /** Key i's tensor, assembled from block i of the values, the weights and the rows. */
  lemma KeyJtFromBlocks(c: Content, i: int)
    requires WellFormed(c) && 0 <= i < |c.keys|
    ensures var wts := WeightBlocks(c);
      KeyJt(c, i) == Jt(Blocks(c.values, KeyLengths(c))[i], if wts.Some? then Some(wts.value[i]) else None,
                        Blocks(c.lengths, c.strides.stridePerKey)[i])
  {
    KeyJtBlocks(c, i);
  }

  /** Run over every key on the blocks of a valid KJT, the loop builds `JtDictContent`. */
  lemma JtDictLoopIsContent(c: Content)
    requires WellFormed(c)
    ensures JtDictLoop(c.keys, Blocks(c.values, KeyLengths(c)), WeightBlocks(c), Blocks(c.lengths, c.strides.stridePerKey), |c.keys|)
         == JtDictContent(c)
  {
    var vals := Blocks(c.values, KeyLengths(c));
    var rows := Blocks(c.lengths, c.strides.stridePerKey);
    var wts := WeightBlocks(c);
    JtDictLoopFull(c.keys, vals, wts, rows);
    var d := JtDictLoop(c.keys, vals, wts, rows, |c.keys|);
    var e := JtDictContent(c);
    var ipk := IndexPerKey(c.keys);
    assert d.Keys == ipk.Keys == e.Keys;
    forall key | key in ipk
      ensures d[key] == e[key]
    {
      var i := ipk[key];
      assert e[key] == KeyJt(c, i);
      KeyJtFromBlocks(c, i);
    }
  }

  /**
   * The code as written builds `JtDictContent` except in one case: uniform
   * mode, at least one key and empty lengths (stride 0), where it raises.
   */
  lemma ToDictAsWrittenAgrees(c: Content)
    requires WellFormed(c)
    ensures ToDictAsWritten(c).Failure? <==> !c.strides.variable && |c.keys| > 0 && c.lengths == []
    ensures ToDictAsWritten(c).Success? ==> ToDictAsWritten(c).value == JtDictContent(c)
  {
    if !c.strides.variable {
      UniformReshapes(c);
    }
    if |c.keys| > 0 && (c.strides.variable || c.lengths != []) {
      JtDictLoopIsContent(c);
    }
  }

  /** One key, no rows, stride 0: `to_dict` raises IndexError where the key's tensor is simply empty. */
  lemma ToDictEmptyRowsCounterexample()
    ensures var c := Content(["f"], [], None, [], UniformStrides(1, 0));
      && WellFormed(c)
      && ToDictAsWritten(c) == Failure(IndexError)
      && JtDictContent(c) == map["f" := Jt([], None, [])]
  {
    var c := Content(["f"], [], None, [], UniformStrides(1, 0));
    UniformStridesValid(1, 0);
    UniformLayout(1, 0);
    assert Repeat(0, 1) == [0];
    assert WellFormed(c);
    ToDictAsWrittenAgrees(c);
    assert IndexPerKey(["f"]) == map["f" := 0];
    OffsetsAt(c, 0, 1);
  }

  // ---------------------------------------------------------------- from_jt_dict

  function JtValuesOf(jts: seq<Jt>): (r: seq<seq<int>>)
    ensures |r| == |jts|
  {
    seq(|jts|, i requires 0 <= i < |jts| => jts[i].values)
  }

  function JtLengthsOf(jts: seq<Jt>): (r: seq<seq<int>>)
    ensures |r| == |jts|
  {
    seq(|jts|, i requires 0 <= i < |jts| => jts[i].lengths)
  }

  /** The weights of the weighted tensors only, in order (`kjt_weights_list`). */
  function PresentWeights(jts: seq<Jt>): (r: seq<seq<int>>)
    ensures |r| <= |jts|
  {
    if jts == [] then []
    else
      var front := PresentWeights(jts[..|jts| - 1]);
      var last := jts[|jts| - 1];
      if last.weights.Some? then front + [last.weights.value] else front
  }

  /** One tensor of stride `s` per key: the batch size of each key as a one-rank list. */
  function OneRankStrides(spk: seq<int>): (r: seq<seq<int>>)
    ensures |r| == |spk|
  {
    seq(|spk|, i requires 0 <= i < |spk| => [spk[i]])
  }

  const EmptyCatMessage: string := "torch.cat(): expected a non-empty list of Tensors"

  /** The lists the `from_jt_dict` loop builds: values, lengths, present weights and row counts. */
  datatype JtLists = JtLists(vals: seq<seq<int>>, lens: seq<seq<int>>, wts: seq<seq<int>>, spk: seq<int>)

  /** One round of the `from_jt_dict` loop. */
  function AppendJt(g: JtLists, d: Jt): JtLists
  {
    JtLists(g.vals + [d.values], g.lens + [d.lengths],
            if d.weights.Some? then g.wts + [d.weights.value] else g.wts, g.spk + [|d.lengths|])
  }

  /** The lists after the `from_jt_dict` loop has visited the first n tensors. */
  function JtListsAfter(ds: seq<Jt>, n: int): JtLists
    requires 0 <= n <= |ds|
  {
    if n == 0 then JtLists([], [], [], []) else AppendJt(JtListsAfter(ds, n - 1), ds[n - 1])
  }

  /** After n tensors, the value and length lists and the row counts are those of the first n tensors. */
  lemma {:induction false} JtListsAfterBuffers(ds: seq<Jt>, n: int)
    requires 0 <= n <= |ds|
    ensures JtListsAfter(ds, n).vals == JtValuesOf(ds[..n])
    ensures JtListsAfter(ds, n).lens == JtLengthsOf(ds[..n])
    ensures JtListsAfter(ds, n).spk == Sizes(JtLengthsOf(ds[..n]))
  {
    if n > 0 {
      JtListsAfterBuffers(ds, n - 1);
      var g := JtListsAfter(ds, n - 1);
      assert JtValuesOf(ds[..n]) == g.vals + [ds[n - 1].values];
      assert JtLengthsOf(ds[..n]) == g.lens + [ds[n - 1].lengths];
      assert Sizes(JtLengthsOf(ds[..n])) == g.spk + [|ds[n - 1].lengths|];
    }
  }

  /** After n tensors, the weight list holds the present weights of the first n tensors. */
  lemma {:induction false} JtListsAfterWeights(ds: seq<Jt>, n: int)
    requires 0 <= n <= |ds|
    ensures JtListsAfter(ds, n).wts == PresentWeights(ds[..n])
  {
    if n > 0 {
      JtListsAfterWeights(ds, n - 1);
      assert ds[..n][..n - 1] == ds[..n - 1];
    }
  }

  /**
   * `KeyedJaggedTensor.from_jt_dict`, the dict given as its keys and tensors in
   * insertion order: values, lengths and present weights are concatenated;
   * equal row counts give a uniform stride, otherwise each key gets its row
   * count as a one-rank stride list. An empty dict cannot be concatenated.
   */
  function FromJtsContent(keys: seq<string>, jts: seq<Jt>): (r: Result<Content, Error>)
    requires |keys| == |jts|
    ensures r.Failure? <==> jts == []
  {
    if jts == [] then Failure(RuntimeError(EmptyCatMessage))
    else
      var spk := Sizes(JtLengthsOf(jts));
      var weights := if |PresentWeights(jts)| > 0 then Some(Flatten(PresentWeights(jts))) else None;
      var uniform := forall i :: 0 <= i < |spk| ==> spk[i] == spk[0];
      Success(Content(keys, Flatten(JtValuesOf(jts)), weights, Flatten(JtLengthsOf(jts)),
                      PassStrides(|keys|, !uniform, spk[0], OneRankStrides(spk))))
  }

  /** With every tensor weighted, the present weights are all of them; with none weighted, there are none. */
  lemma {:induction false} PresentWeightsUniform(jts: seq<Jt>)
    requires forall i :: 0 <= i < |jts| ==> jts[i].weights.Some? == jts[0].weights.Some?
    ensures jts != [] && jts[0].weights.Some? ==>
      PresentWeights(jts) == seq(|jts|, i requires 0 <= i < |jts| => jts[i].weights.value)
    ensures jts == [] || jts[0].weights.None? ==> PresentWeights(jts) == []
  {
    if jts != [] {
      var n := |jts|;
      PresentWeightsUniform(jts[..n - 1]);
    }
  }

  /** The stride fields `from_jt_dict` passes are valid, with one per-key stride per tensor, its row count. */
  lemma FromJtsStrides(keys: seq<string>, jts: seq<Jt>)
    requires |keys| == |jts| > 0
    ensures var s := FromJtsContent(keys, jts).value.strides;
      StridesValid(|keys|, s) && s.stridePerKey == Sizes(JtLengthsOf(jts))
  {
    var spk := Sizes(JtLengthsOf(jts));
    var s := FromJtsContent(keys, jts).value.strides;
    if forall i :: 0 <= i < |spk| ==> spk[i] == spk[0] {
      UniformLayout(|keys|, spk[0]);
      assert spk == Repeat(spk[0], |keys|);
      UniformStridesValid(|keys|, spk[0]);
    } else {
      forall i | 0 <= i < |spk|
        ensures PerKeySums(OneRankStrides(spk))[i] == spk[i]
      {
        var row := OneRankStrides(spk)[i];
        assert row == [spk[i]] && row[..0] == [];
        assert Sum(row) == Sum(row[..0]) + spk[i];
      }
    }
  }

  /** Every tensor weighted, or none. */
  predicate SameWeightedness(jts: seq<Jt>)
  {
    forall i :: 0 <= i < |jts| ==> jts[i].weights.Some? == jts[0].weights.Some?
  }

  /** The weights of all tensors, when all are weighted. */
  function AllWeights(jts: seq<Jt>): (r: seq<seq<int>>)
    requires forall i :: 0 <= i < |jts| ==> jts[i].weights.Some?
    ensures |r| == |jts|
  {
    seq(|jts|, i requires 0 <= i < |jts| => jts[i].weights.value)
  }

  /** Valid tensors of one weightedness build a valid KJT whose per-key lengths are their value counts. */
  lemma FromJtsWellFormed(keys: seq<string>, jts: seq<Jt>)
    requires |keys| == |jts| > 0 && SameWeightedness(jts)
    requires forall i :: 0 <= i < |jts| ==> JtValid(jts[i])
    ensures WellFormed(FromJtsContent(keys, jts).value)
    ensures KeyLengths(FromJtsContent(keys, jts).value) == Sizes(JtValuesOf(jts))
    ensures jts[0].weights.Some? ==> FromJtsContent(keys, jts).value.weights == Some(Flatten(AllWeights(jts)))
    ensures jts[0].weights.None? ==> FromJtsContent(keys, jts).value.weights.None?
  {
    var c := FromJtsContent(keys, jts).value;
    var ls, vs := JtLengthsOf(jts), JtValuesOf(jts);
    FromJtsStrides(keys, jts);
    FlattenNonNeg(ls);
    FlattenSizes(ls);
    FlattenSizes(vs);
    SumFlatten(ls);
    assert seq(|ls|, i requires 0 <= i < |ls| => Sum(ls[i])) == Sizes(vs);
    PresentWeightsUniform(jts);
    if jts[0].weights.Some? {
      FlattenSizes(AllWeights(jts));
      assert Sizes(AllWeights(jts)) == Sizes(vs);
    }
    assert WellFormed(c);
    BlocksOfFlatten(ls);
    assert KeyLengths(c) == BlockSums(Flatten(ls), Sizes(ls));
  }

  /** Key i of the KJT `from_jt_dict` builds is the i-th tensor of the dict. */
  lemma FromJtsKeyJt(keys: seq<string>, jts: seq<Jt>, i: int)
    requires |keys| == |jts| > 0 && SameWeightedness(jts)
    requires forall i :: 0 <= i < |jts| ==> JtValid(jts[i])
    requires 0 <= i < |jts|
    ensures WellFormed(FromJtsContent(keys, jts).value)
    ensures KeyJt(FromJtsContent(keys, jts).value, i) == jts[i]
  {
    var c := FromJtsContent(keys, jts).value;
    FromJtsWellFormed(keys, jts);
    FromJtsStrides(keys, jts);
    KeyJtBlocks(c, i);
    BlocksOfFlatten(JtValuesOf(jts));
    BlocksOfFlatten(JtLengthsOf(jts));
    if jts[0].weights.Some? {
      assert Sizes(AllWeights(jts)) == Sizes(JtValuesOf(jts));
      BlocksOfFlatten(AllWeights(jts));
    }
  }

  /**
   * `from_jt_dict` then `to_dict` is the identity: a dict's keys are distinct,
   * so every key reads back its own tensor.
   */
  lemma FromJtsThenToDict(keys: seq<string>, jts: seq<Jt>)
    requires |keys| == |jts| > 0 && SameWeightedness(jts)
    requires forall i :: 0 <= i < |jts| ==> JtValid(jts[i])
    requires forall i, j :: 0 <= i < j < |keys| ==> keys[i] != keys[j]
    ensures WellFormed(FromJtsContent(keys, jts).value)
    ensures forall key :: key in JtDictContent(FromJtsContent(keys, jts).value) <==> key in keys
    ensures forall i :: 0 <= i < |keys| ==> JtDictContent(FromJtsContent(keys, jts).value)[keys[i]] == jts[i]
  {
    var c := FromJtsContent(keys, jts).value;
    FromJtsWellFormed(keys, jts);
    IndexOfDistinctKeys(keys);
    forall i | 0 <= i < |keys|
      ensures JtDictContent(c)[keys[i]] == jts[i]
    {
      FromJtsKeyJt(keys, jts, i);
    }
  }
}
