// Consecutive blocks of a flat buffer.
//
// A keyed jagged buffer is cut into per-key blocks by a list of block sizes.
// The fbgemm kernels the source calls are given their meaning here:
// `torch.split(t, sizes)` is `Blocks`, `segment_sum_csr` and the per-chunk
// `torch.sum` are `BlockSums`, and `permute_1D_sparse_data`,
// `permute_2D_sparse_data` and `keyed_jagged_index_select_dim1` gather whole
// blocks in index order (`Gather`).

module Segments {
  import opened Prefix

  /** `torch.cat(pieces)`: the pieces one after another. */
  function Flatten<T>(pieces: seq<seq<T>>): seq<T>
  {
    if pieces == [] then [] else Flatten(pieces[..|pieces| - 1]) + pieces[|pieces| - 1]
  }

  /** The size of each piece. */
  function Sizes<T>(pieces: seq<seq<T>>): seq<int>
  {
    seq(|pieces|, i requires 0 <= i < |pieces| => |pieces[i]|)
  }

  /** `sizes` cuts a buffer of `n` entries into consecutive blocks, as `torch.split` demands. */
  predicate Partitions(sizes: seq<int>, n: int)
  {
    AllNonNeg(sizes) && Sum(sizes) == n
  }

  /** `torch.split(s, sizes)`: block k is the `sizes[k]` entries from `cumsum(sizes)[k]` on. */
  function Blocks<T>(s: seq<T>, sizes: seq<int>): (r: seq<seq<T>>)
    requires Partitions(sizes, |s|)
    ensures |r| == |sizes|
    ensures forall k :: 0 <= k < |sizes| ==> |r[k]| == sizes[k]
  {
    CumsumSteps(sizes);
    var c := CompleteCumsum(sizes);
    seq(|sizes|, k requires 0 <= k < |sizes| => s[c[k]..c[k] + sizes[k]])
  }

  /** The sum of every block (`segment_sum_csr`, or `torch.sum` of each `torch.split` chunk). */
  function BlockSums(s: seq<int>, sizes: seq<int>): (r: seq<int>)
    requires Partitions(sizes, |s|)
    ensures |r| == |sizes|
  {
    var b := Blocks(s, sizes);
    seq(|sizes|, k requires 0 <= k < |sizes| => Sum(b[k]))
  }

  predicate InRange(idx: seq<int>, n: int)
  {
    forall i :: 0 <= i < |idx| ==> 0 <= idx[i] < n
  }

  /** `[xs[i] for i in idx]` */
  function Pick<T>(xs: seq<T>, idx: seq<int>): (r: seq<T>)
    requires InRange(idx, |xs|)
    ensures |r| == |idx|
  {
    seq(|idx|, i requires 0 <= i < |idx| => xs[idx[i]])
  }

  /** `[0, 1, ..., n-1]` */
  function Range(n: nat): seq<int>
  {
    seq(n, i => i)
  }

  /** Whole blocks of `s`, taken in the order `idx` names them (a block permute kernel). */
  function Gather<T>(s: seq<T>, sizes: seq<int>, idx: seq<int>): seq<T>
    requires Partitions(sizes, |s|) && InRange(idx, |sizes|)
  {
    Flatten(Pick(Blocks(s, sizes), idx))
  }

  lemma {:induction false} FlattenConcat<T>(a: seq<seq<T>>, b: seq<seq<T>>)
    ensures Flatten(a + b) == Flatten(a) + Flatten(b)
  {
    if b == [] {
      assert a + b == a;
    } else {
      var ab := a + b;
      assert ab[..|ab| - 1] == a + b[..|b| - 1];
      FlattenConcat(a, b[..|b| - 1]);
    }
  }

  /** Concatenating the concatenations is concatenating each group and then the groups. */
  lemma {:induction false} FlattenFlatten<T>(groups: seq<seq<seq<T>>>)
    ensures Flatten(Flatten(groups)) == Flatten(seq(|groups|, k requires 0 <= k < |groups| => Flatten(groups[k])))
  {
    if groups != [] {
      var m := |groups|;
      var joined := seq(m, k requires 0 <= k < m => Flatten(groups[k]));
      FlattenFlatten(groups[..m - 1]);
      FlattenConcat(Flatten(groups[..m - 1]), groups[m - 1]);
      assert joined[..m - 1] == seq(m - 1, k requires 0 <= k < m - 1 => Flatten(groups[..m - 1][k]));
    }
  }

  lemma FlattenOne<T>(x: seq<T>)
    ensures Flatten([x]) == x
  {
    assert [x][..0] == [];
  }

  lemma {:induction false} FlattenSizes<T>(pieces: seq<seq<T>>)
    ensures |Flatten(pieces)| == Sum(Sizes(pieces))
  {
    if pieces != [] {
      assert Sizes(pieces)[..|pieces| - 1] == Sizes(pieces[..|pieces| - 1]);
      FlattenSizes(pieces[..|pieces| - 1]);
    }
  }

  /** Block k of a split buffer, with the bounds of its window. */
  lemma BlockAt<T>(s: seq<T>, sizes: seq<int>, k: int)
    requires Partitions(sizes, |s|) && 0 <= k < |sizes|
    ensures 0 <= CompleteCumsum(sizes)[k] <= CompleteCumsum(sizes)[k + 1] <= |s|
    ensures Blocks(s, sizes)[k] == s[CompleteCumsum(sizes)[k]..CompleteCumsum(sizes)[k + 1]]
  {
    CumsumEnds(sizes);
    CumsumAt(sizes, k, k + 1);
    CumsumStep(sizes, k);
  }

  /** An empty buffer splits into empty blocks only. */
  lemma BlocksOfEmpty<T>(sizes: seq<int>)
    requires Partitions(sizes, 0)
    ensures Blocks<T>([], sizes) == Repeat([], |sizes|)
  {
    var b := Blocks<T>([], sizes);
    forall k | 0 <= k < |sizes|
      ensures b[k] == []
    {
      BlockAt<T>([], sizes, k);
    }
  }

  /** Every block of non-negative entries is non-negative, and so is its sum. */
  lemma BlockNonNeg(s: seq<int>, sizes: seq<int>, k: int)
    requires Partitions(sizes, |s|) && AllNonNeg(s) && 0 <= k < |sizes|
    ensures AllNonNeg(Blocks(s, sizes)[k]) && Sum(Blocks(s, sizes)[k]) >= 0
  {
    BlockAt(s, sizes, k);
    var c := CompleteCumsum(sizes);
    var b := s[c[k]..c[k + 1]];
    forall i | 0 <= i < |b|
      ensures b[i] >= 0
    {
      assert b[i] == s[c[k] + i];
    }
    SumNonNeg(b);
  }

  /** Piece k sits in a concatenation right after the pieces before it. */
  lemma FlattenAt<T>(pieces: seq<seq<T>>, k: int)
    requires 0 <= k < |pieces|
    ensures Flatten(pieces) == Flatten(pieces[..k]) + pieces[k] + Flatten(pieces[k + 1..])
    ensures |Flatten(pieces[..k])| == CompleteCumsum(Sizes(pieces))[k]
  {
    assert pieces == pieces[..k] + ([pieces[k]] + pieces[k + 1..]);
    FlattenConcat(pieces[..k], [pieces[k]] + pieces[k + 1..]);
    FlattenConcat([pieces[k]], pieces[k + 1..]);
    FlattenOne(pieces[k]);
    assert Sizes(pieces)[..k] == Sizes(pieces[..k]);
    FlattenSizes(pieces[..k]);
  }

  /** Splitting a concatenation by the sizes of its pieces gives the pieces back. */
  lemma BlocksOfFlatten<T>(pieces: seq<seq<T>>)
    ensures Partitions(Sizes(pieces), |Flatten(pieces)|)
    ensures Blocks(Flatten(pieces), Sizes(pieces)) == pieces
  {
    var sz := Sizes(pieces);
    var f := Flatten(pieces);
    FlattenSizes(pieces);
    var b := Blocks(f, sz);
    forall k | 0 <= k < |pieces|
      ensures b[k] == pieces[k]
    {
      BlockAt(f, sz, k);
      FlattenAt(pieces, k);
    }
  }

  /** The prefix sums of a window are the prefix sums of the whole, shifted. */
  lemma CumsumWindow(sizes: seq<int>, a: int, b: int, j: int)
    requires 0 <= a <= b <= |sizes| && 0 <= j <= b - a
    ensures CompleteCumsum(sizes[a..b])[j] == CompleteCumsum(sizes)[a + j] - CompleteCumsum(sizes)[a]
  {
    assert sizes[a..b][..j] == sizes[a..a + j];
    WindowSum(sizes, a, a + j);
  }

  lemma SliceOfSlice<T>(s: seq<T>, lo: int, hi: int, x: int, y: int)
    requires 0 <= lo <= hi <= |s| && 0 <= x <= y <= hi - lo
    ensures s[lo..hi][x..y] == s[lo + x..lo + y]
  {
    var u, v := s[lo..hi][x..y], s[lo + x..lo + y];
    assert |u| == |v|;
    forall i | 0 <= i < |u|
      ensures u[i] == v[i]
    {
    }
  }

  /** Entries `j..j+1` of a window's prefix sums, read in the window's buffer, are entries `a+j..a+j+1` of the whole. */
  lemma SliceOfWindow<T>(s: seq<T>, sizes: seq<int>, a: int, b: int, j: int)
    requires 0 <= a <= b <= |sizes| && 0 <= j < b - a
    requires var c := CompleteCumsum(sizes); 0 <= c[a] <= c[a + j] <= c[a + j + 1] <= c[b] <= |s|
    ensures var c, cw := CompleteCumsum(sizes), CompleteCumsum(sizes[a..b]);
      0 <= cw[j] <= cw[j + 1] <= c[b] - c[a] && s[c[a]..c[b]][cw[j]..cw[j + 1]] == s[c[a + j]..c[a + j + 1]]
  {
    var c := CompleteCumsum(sizes);
    CumsumWindow(sizes, a, b, j);
    CumsumWindow(sizes, a, b, j + 1);
    var cw := CompleteCumsum(sizes[a..b]);
    SliceOfSlice(s, c[a], c[b], cw[j], cw[j + 1]);
  }

  /** One block of a window of blocks. */
  lemma BlockOfWindow<T>(s: seq<T>, sizes: seq<int>, a: int, b: int, j: int)
    requires Partitions(sizes, |s|)
    requires 0 <= a <= b <= |sizes| && 0 <= j < b - a
    requires 0 <= CompleteCumsum(sizes)[a] <= CompleteCumsum(sizes)[b] <= |s|
    requires Partitions(sizes[a..b], CompleteCumsum(sizes)[b] - CompleteCumsum(sizes)[a])
    ensures Blocks(s[CompleteCumsum(sizes)[a]..CompleteCumsum(sizes)[b]], sizes[a..b])[j] == Blocks(s, sizes)[a + j]
  {
    var c := CompleteCumsum(sizes);
    CumsumAt(sizes, a, a + j);
    CumsumAt(sizes, a + j, a + j + 1);
    CumsumAt(sizes, a + j + 1, b);
    BlockAt(s[c[a]..c[b]], sizes[a..b], j);
    BlockAt(s, sizes, a + j);
    SliceOfWindow(s, sizes, a, b, j);
  }

  /** A window of whole blocks is itself split by the window of sizes. */
  lemma BlocksWindow<T>(s: seq<T>, sizes: seq<int>, a: int, b: int)
    requires Partitions(sizes, |s|)
    requires 0 <= a <= b <= |sizes|
    ensures 0 <= CompleteCumsum(sizes)[a] <= CompleteCumsum(sizes)[b] <= |s|
    ensures Partitions(sizes[a..b], CompleteCumsum(sizes)[b] - CompleteCumsum(sizes)[a])
    ensures Blocks(s[CompleteCumsum(sizes)[a]..CompleteCumsum(sizes)[b]], sizes[a..b]) == Blocks(s, sizes)[a..b]
  {
    CumsumEnds(sizes);
    CumsumAt(sizes, a, b);
    WindowSum(sizes, a, b);
    var c := CompleteCumsum(sizes);
    var lhs := Blocks(s[c[a]..c[b]], sizes[a..b]);
    var rhs := Blocks(s, sizes)[a..b];
    forall j | 0 <= j < b - a
      ensures lhs[j] == rhs[j]
    {
      BlockOfWindow(s, sizes, a, b, j);
    }
  }

  /** Concatenating the blocks gives the buffer back. */
  lemma {:induction false} FlattenOfBlocks<T>(s: seq<T>, sizes: seq<int>)
    requires Partitions(sizes, |s|)
    ensures Flatten(Blocks(s, sizes)) == s
    decreases |sizes|
  {
    var n := |sizes|;
    var c := CompleteCumsum(sizes);
    CumsumEnds(sizes);
    if n == 0 {
    } else {
      BlocksWindow(s, sizes, 0, n - 1);
      assert sizes[0..n - 1] == sizes[..n - 1];
      FlattenOfBlocks(s[c[0]..c[n - 1]], sizes[0..n - 1]);
      var b := Blocks(s, sizes);
      assert b[..n - 1] == b[0..n - 1];
      BlockAt(s, sizes, n - 1);
      assert s == s[c[0]..c[n - 1]] + s[c[n - 1]..c[n]];
    }
  }

  lemma {:induction false} SumFlatten(pieces: seq<seq<int>>)
    ensures Sum(Flatten(pieces)) == Sum(seq(|pieces|, i requires 0 <= i < |pieces| => Sum(pieces[i])))
  {
    if pieces != [] {
      var n := |pieces|;
      var sums := seq(n, i requires 0 <= i < n => Sum(pieces[i]));
      assert sums[..n - 1] == seq(n - 1, i requires 0 <= i < n - 1 => Sum(pieces[..n - 1][i]));
      SumFlatten(pieces[..n - 1]);
      SumConcat(Flatten(pieces[..n - 1]), pieces[n - 1]);
    }
  }

  /** The block sums add up to the total: `sum(length_per_key) == sum(lengths)`. */
  lemma BlockSumsTotal(s: seq<int>, sizes: seq<int>)
    requires Partitions(sizes, |s|)
    ensures Sum(BlockSums(s, sizes)) == Sum(s)
  {
    var b := Blocks(s, sizes);
    FlattenOfBlocks(s, sizes);
    SumFlatten(b);
    assert BlockSums(s, sizes) == seq(|b|, i requires 0 <= i < |b| => Sum(b[i]));
  }

  /** The block sums of a window of blocks are the window of block sums. */
  lemma BlockSumsWindow(s: seq<int>, sizes: seq<int>, a: int, b: int)
    requires Partitions(sizes, |s|)
    requires 0 <= a <= b <= |sizes|
    ensures 0 <= CompleteCumsum(sizes)[a] <= CompleteCumsum(sizes)[b] <= |s|
    ensures Partitions(sizes[a..b], CompleteCumsum(sizes)[b] - CompleteCumsum(sizes)[a])
    ensures BlockSums(s[CompleteCumsum(sizes)[a]..CompleteCumsum(sizes)[b]], sizes[a..b]) == BlockSums(s, sizes)[a..b]
  {
    BlocksWindow(s, sizes, a, b);
  }

  /** Splitting two buffers laid end to end gives the blocks of each, in order. */
  lemma BlocksConcat<T>(a: seq<T>, sa: seq<int>, b: seq<T>, sb: seq<int>)
    requires Partitions(sa, |a|) && Partitions(sb, |b|)
    ensures Partitions(sa + sb, |a + b|)
    ensures Blocks(a + b, sa + sb) == Blocks(a, sa) + Blocks(b, sb)
  {
    var p := Blocks(a, sa) + Blocks(b, sb);
    FlattenConcat(Blocks(a, sa), Blocks(b, sb));
    FlattenOfBlocks(a, sa);
    FlattenOfBlocks(b, sb);
    assert Sizes(p) == sa + sb;
    BlocksOfFlatten(p);
  }

  lemma BlockSumsConcat(a: seq<int>, sa: seq<int>, b: seq<int>, sb: seq<int>)
    requires Partitions(sa, |a|) && Partitions(sb, |b|)
    ensures Partitions(sa + sb, |a + b|)
    ensures BlockSums(a + b, sa + sb) == BlockSums(a, sa) + BlockSums(b, sb)
  {
    BlocksConcat(a, sa, b, sb);
  }

  /** The gathered buffer is split by the gathered sizes into the gathered blocks. */
  lemma GatherBlocks<T>(s: seq<T>, sizes: seq<int>, idx: seq<int>)
    requires Partitions(sizes, |s|) && InRange(idx, |sizes|)
    ensures Partitions(Pick(sizes, idx), |Gather(s, sizes, idx)|)
    ensures Blocks(Gather(s, sizes, idx), Pick(sizes, idx)) == Pick(Blocks(s, sizes), idx)
  {
    var p := Pick(Blocks(s, sizes), idx);
    assert Sizes(p) == Pick(sizes, idx);
    BlocksOfFlatten(p);
  }

  /** Block sums follow the blocks they sum: per-key lengths are permuted with the keys. */
  lemma GatherBlockSums(s: seq<int>, sizes: seq<int>, idx: seq<int>)
    requires Partitions(sizes, |s|) && InRange(idx, |sizes|)
    ensures Partitions(Pick(sizes, idx), |Gather(s, sizes, idx)|)
    ensures BlockSums(Gather(s, sizes, idx), Pick(sizes, idx)) == Pick(BlockSums(s, sizes), idx)
  {
    GatherBlocks(s, sizes, idx);
  }

  /** Gathering every block in its own order changes nothing. */
  lemma GatherIdentity<T>(s: seq<T>, sizes: seq<int>)
    requires Partitions(sizes, |s|)
    ensures InRange(Range(|sizes|), |sizes|)
    ensures Gather(s, sizes, Range(|sizes|)) == s
  {
    assert Pick(Blocks(s, sizes), Range(|sizes|)) == Blocks(s, sizes);
    FlattenOfBlocks(s, sizes);
  }

  /** Two gathers in a row are one gather by the composed index list. */
  lemma GatherCompose<T>(s: seq<T>, sizes: seq<int>, p: seq<int>, q: seq<int>)
    requires Partitions(sizes, |s|) && InRange(p, |sizes|) && InRange(q, |p|)
    ensures Partitions(Pick(sizes, p), |Gather(s, sizes, p)|)
    ensures InRange(Pick(p, q), |sizes|)
    ensures Gather(Gather(s, sizes, p), Pick(sizes, p), q) == Gather(s, sizes, Pick(p, q))
  {
    GatherBlocks(s, sizes, p);
    var b := Blocks(s, sizes);
    assert Pick(Pick(b, p), q) == Pick(b, Pick(p, q));
  }

  /** Gathering by `p` and then by an inverse `q` of `p` restores the buffer. */
  lemma GatherInverse<T>(s: seq<T>, sizes: seq<int>, p: seq<int>, q: seq<int>)
    requires Partitions(sizes, |s|) && InRange(p, |sizes|) && InRange(q, |p|)
    requires Pick(p, q) == Range(|sizes|)
    ensures Partitions(Pick(sizes, p), |Gather(s, sizes, p)|)
    ensures Gather(Gather(s, sizes, p), Pick(sizes, p), q) == s
  {
    GatherCompose(s, sizes, p, q);
    GatherIdentity(s, sizes);
  }

  /** Pieces of non-negative entries concatenate into non-negative entries. */
  lemma {:induction false} FlattenNonNeg(pieces: seq<seq<int>>)
    requires forall i :: 0 <= i < |pieces| ==> AllNonNeg(pieces[i])
    ensures AllNonNeg(Flatten(pieces))
  {
    if pieces != [] {
      var n := |pieces|;
      FlattenNonNeg(pieces[..n - 1]);
      var f, last := Flatten(pieces[..n - 1]), pieces[n - 1];
      assert forall i :: 0 <= i < |f + last| ==> (f + last)[i] == if i < |f| then f[i] else last[i - |f|];
    }
  }

  /** A gather of non-negative entries is non-negative, and its total is the total of the gathered block sums. */
  lemma GatherNonNeg(s: seq<int>, sizes: seq<int>, idx: seq<int>)
    requires Partitions(sizes, |s|) && InRange(idx, |sizes|) && AllNonNeg(s)
    ensures AllNonNeg(Gather(s, sizes, idx))
    ensures Sum(Gather(s, sizes, idx)) == Sum(Pick(BlockSums(s, sizes), idx))
  {
    var p := Pick(Blocks(s, sizes), idx);
    forall i | 0 <= i < |p|
      ensures AllNonNeg(p[i])
    {
      BlockNonNeg(s, sizes, idx[i]);
    }
    FlattenNonNeg(p);
    GatherBlockSums(s, sizes, idx);
    BlockSumsTotal(Gather(s, sizes, idx), Pick(sizes, idx));
  }

  /** The piece of `s` between two bounds, one piece per consecutive pair of bounds. */
  function Windows<T>(s: seq<T>, b: seq<int>): (r: seq<seq<T>>)
    requires |b| >= 1 && forall i, j :: 0 <= i <= j < |b| ==> 0 <= b[i] <= b[j] <= |s|
    ensures |r| == |b| - 1
  {
    seq(|b| - 1, i requires 0 <= i < |b| - 1 => s[b[i]..b[i + 1]])
  }

  /** Consecutive windows, joined, give the span they cover. */
  lemma {:induction false} FlattenWindows<T>(s: seq<T>, b: seq<int>)
    requires |b| >= 1 && forall i, j :: 0 <= i <= j < |b| ==> 0 <= b[i] <= b[j] <= |s|
    ensures Flatten(Windows(s, b)) == s[b[0]..b[|b| - 1]]
  {
    var n := |b|;
    if n > 1 {
      var w := Windows(s, b);
      assert w[..n - 2] == Windows(s, b[..n - 1]);
      FlattenWindows(s, b[..n - 1]);
      assert s[b[0]..b[n - 1]] == s[b[0]..b[n - 2]] + s[b[n - 2]..b[n - 1]];
    }
  }
}
