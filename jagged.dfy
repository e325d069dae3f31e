// `JaggedTensor`: a flat value buffer cut into rows of varying length.
//
// The rows are given by `lengths`, by `offsets` (their prefix sums), or by
// both. Whichever array is missing is derived on first access and stored
// back into the instance, so the two mutable fields are lazy caches while the
// value and weight buffers never change.

module Jagged {
  import opened Wrappers
  import opened Prefix
  import opened Segments

  /** `_maybe_compute_lengths`: the stored lengths, else the adjacent differences of the offsets. */
  function MaybeComputeLengths(lengths: Option<seq<int>>, offsets: Option<seq<int>>): (r: Result<seq<int>, Error>)
    ensures r.Failure? <==> lengths.None? && offsets.None?
    ensures lengths.Some? ==> r == Success(lengths.value)
  {
    if lengths.Some? then Success(lengths.value)
    else if offsets.Some? then Success(ToLengths(offsets.value))
    else Failure(AssertionError(""))
  }

  /** `_maybe_compute_offsets`: the stored offsets, else the complete cumsum of the lengths. */
  function MaybeComputeOffsets(lengths: Option<seq<int>>, offsets: Option<seq<int>>): (r: Result<seq<int>, Error>)
    ensures r.Failure? <==> lengths.None? && offsets.None?
    ensures offsets.Some? ==> r == Success(offsets.value)
  {
    if offsets.Some? then Success(offsets.value)
    else if lengths.Some? then Success(CompleteCumsum(lengths.value))
    else Failure(AssertionError(""))
  }

  /** A tensor described by lengths alone and one described by their offsets alone hold the same rows. */
  lemma LazyArraysAgree(l: seq<int>)
    ensures MaybeComputeLengths(None, Some(CompleteCumsum(l))) == Success(l)
    ensures MaybeComputeOffsets(Some(l), None) == MaybeComputeOffsets(None, Some(CompleteCumsum(l)))
  {
    LengthsOfCumsum(l);
  }

  /** The row lengths a pair of optional arrays stands for (empty when both are absent). */
  function RowLengthsOf(lengths: Option<seq<int>>, offsets: Option<seq<int>>): seq<int>
  {
    if lengths.Some? then lengths.value
    else if offsets.Some? then ToLengths(offsets.value)
    else []
  }

  /**
   * Stored offsets match the row lengths: they are their complete cumsum, or
   * the empty tensor that an empty instance (`empty`, a zero-key split) carries.
   */
  predicate OffsetsAgree(offsets: Option<seq<int>>, l: seq<int>)
  {
    offsets.Some? ==> offsets.value == CompleteCumsum(l) || (offsets.value == [] && l == [])
  }

  /** The offsets `offsets()` hands out: the stored ones, else the cumsum of the row lengths. */
  function RowOffsetsOf(lengths: Option<seq<int>>, offsets: Option<seq<int>>): seq<int>
  {
    if offsets.Some? then offsets.value else CompleteCumsum(RowLengthsOf(lengths, offsets))
  }

  /** `_check_attributes`: both absent, or both present and equal (a size mismatch counts as unequal). */
  function CheckAttributes<T(==)>(a: Option<T>, b: Option<T>): (r: bool)
    ensures r <==> a == b
  {
    if a.Some? && b.Some? then a.value == b.value
    else !(a.Some? || b.Some?)
  }

  /** Rows `buf[offsets[i] : offsets[i + 1]]` for every i, as the `to_dense` loops build them. */
  method SliceRows(buf: seq<int>, offsets: seq<int>, ghost l: seq<int>) returns (rows: seq<seq<int>>)
    requires Partitions(l, |buf|)
    requires offsets == CompleteCumsum(l) || (offsets == [] && l == [])
    ensures rows == Blocks(buf, l)
  {
    CumsumShape(l);
    ghost var b := Blocks(buf, l);
    rows := [];
    var index := 0;
    while index < |offsets| - 1
      invariant 0 <= index <= |l|
      invariant offsets != [] ==> |offsets| == |l| + 1
      invariant rows == b[..index]
    {
      BlockAt(buf, l, index);
      rows := rows + [buf[offsets[index]..offsets[index + 1]]];
      index := index + 1;
    }
    assert index == |l| by {
      if offsets == [] {
        assert l == [];
      }
    }
  }

  class JaggedTensor {
    const values: seq<int>
    const weights: Option<seq<int>>
    var lengths: Option<seq<int>>
    var offsets: Option<seq<int>>

    ghost function RowLengths(): seq<int>
      reads this
    {
      RowLengthsOf(lengths, offsets)
    }

    ghost function RowOffsets(): seq<int>
      reads this
    {
      RowOffsetsOf(lengths, offsets)
    }

    /**
     * The valid-input contract: a row array is present, the rows cover the
     * value buffer exactly, stored offsets agree with the rows, and weights
     * run parallel to the values.
     */
    ghost predicate Valid()
      reads this
    {
      && (lengths.Some? || offsets.Some?)
      && Partitions(RowLengths(), |values|)
      && OffsetsAgree(offsets, RowLengths())
      && (weights.Some? ==> |weights.value| == |values|)
    }

    /** The constructor once `_assert_offsets_or_lengths_is_provided` has passed. */
    constructor (values: seq<int>, weights: Option<seq<int>>, lengths: Option<seq<int>>, offsets: Option<seq<int>>)
      requires lengths.Some? || offsets.Some?
      ensures this.values == values && this.weights == weights
      ensures this.lengths == lengths && this.offsets == offsets
    {
      this.values := values;
      this.weights := weights;
      this.lengths := lengths;
      this.offsets := offsets;
    }

    /** `JaggedTensor(...)`: raises AssertionError unless lengths or offsets is given. */
    static method New(values: seq<int>, weights: Option<seq<int>>, lengths: Option<seq<int>>, offsets: Option<seq<int>>)
      returns (r: Result<JaggedTensor, Error>)
      ensures r.Failure? <==> lengths.None? && offsets.None?
      ensures r.Failure? ==> r.error == AssertionError("Must provide lengths or offsets")
      ensures r.Success? ==> fresh(r.value) && r.value.values == values && r.value.weights == weights
      ensures r.Success? ==> r.value.lengths == lengths && r.value.offsets == offsets
    {
      if lengths.None? && offsets.None? {
        return Failure(AssertionError("Must provide lengths or offsets"));
      }
      var jt := new JaggedTensor(values, weights, lengths, offsets);
      return Success(jt);
    }

    /** `JaggedTensor.empty`: no values, and empty lengths and offsets. */
    static method Empty(isWeighted: bool) returns (jt: JaggedTensor)
      ensures fresh(jt) && jt.Valid()
      ensures jt.values == [] && jt.RowLengths() == []
      ensures jt.weights == (if isWeighted then Some([]) else None)
    {
      jt := new JaggedTensor([], if isWeighted then Some([]) else None, Some([]), Some([]));
    }

    /** `from_dense`: lengths are the piece sizes and values their concatenation. */
    static method FromDense(pieces: seq<seq<int>>, weightPieces: Option<seq<seq<int>>>) returns (jt: JaggedTensor)
      requires weightPieces.Some? ==> |Flatten(weightPieces.value)| == |Flatten(pieces)|
      ensures fresh(jt) && jt.Valid()
      ensures jt.values == Flatten(pieces) && jt.lengths == Some(Sizes(pieces)) && jt.offsets == None
      ensures jt.weights == (if weightPieces.Some? then Some(Flatten(weightPieces.value)) else None)
    {
      FlattenSizes(pieces);
      var w := if weightPieces.Some? then Some(Flatten(weightPieces.value)) else None;
      jt := new JaggedTensor(Flatten(pieces), w, Some(Sizes(pieces)), None);
    }

    /** `lengths()`: computes the lengths only when absent and stores them. */
    method Lengths() returns (r: seq<int>)
      requires Valid()
      modifies this
      ensures Valid()
      ensures r == old(RowLengths()) && lengths == Some(r) && offsets == old(offsets)
      ensures old(lengths).Some? ==> r == old(lengths).value
    {
      r := MaybeComputeLengths(lengths, offsets).value;
      lengths := Some(r);
    }

    /** `offsets()`: computes the offsets only when absent and stores them. */
    method Offsets() returns (r: seq<int>)
      requires Valid()
      modifies this
      ensures Valid()
      ensures r == old(RowOffsets()) && offsets == Some(r) && lengths == old(lengths)
      ensures RowLengths() == old(RowLengths())
      ensures old(offsets).Some? ==> r == old(offsets).value
    {
      r := MaybeComputeOffsets(lengths, offsets).value;
      offsets := Some(r);
    }

    /** `to_dense`: row i is `values[offsets[i] : offsets[i + 1]]`. */
    method ToDense() returns (r: seq<seq<int>>)
      requires Valid()
      modifies this
      ensures Valid() && RowLengths() == old(RowLengths())
      ensures r == Blocks(values, RowLengths())
    {
      var offs := Offsets();
      r := SliceRows(values, offs, RowLengths());
    }

    /** `to_dense_weights`: the weight rows, or None for an unweighted tensor. */
    method ToDenseWeights() returns (r: Option<seq<seq<int>>>)
      requires Valid()
      modifies this
      ensures Valid() && RowLengths() == old(RowLengths())
      ensures weights.None? ==> r.None?
      ensures weights.Some? ==> r == Some(Blocks(weights.value, RowLengths()))
    {
      if weights.None? {
        return None;
      }
      var offs := Offsets();
      var rows := SliceRows(weights.value, offs, RowLengths());
      r := Some(rows);
    }

    /** `_force_length_offset_computation`: afterwards both row arrays are stored. */
    method ForceLengthOffsetComputation()
      requires Valid()
      modifies this
      ensures Valid() && lengths.Some? && offsets.Some?
      ensures RowLengths() == old(RowLengths()) && RowOffsets() == old(RowOffsets())
    {
      if offsets.Some? && lengths.None? {
        var _ := Lengths();
      } else if lengths.Some? && offsets.None? {
        var _ := Offsets();
      }
    }
  }

  /**
   * `jt_is_equal`: unequal values decide at once; otherwise both tensors are
   * forced to hold lengths and offsets, and weights, lengths and offsets are
   * compared.
   */
  method JtIsEqual(a: JaggedTensor, b: JaggedTensor) returns (r: bool)
    requires a.Valid() && b.Valid()
    modifies a, b
    ensures a.Valid() && b.Valid()
    ensures a.RowLengths() == old(a.RowLengths()) && b.RowLengths() == old(b.RowLengths())
    ensures r <==> a.values == b.values && a.weights == b.weights
                   && old(a.RowLengths()) == old(b.RowLengths()) && old(a.RowOffsets()) == old(b.RowOffsets())
    ensures a.values != b.values ==> unchanged(a, b)
  {
    if !CheckAttributes(Some(a.values), Some(b.values)) {
      return false;
    }
    a.ForceLengthOffsetComputation();
    b.ForceLengthOffsetComputation();
    r := CheckAttributes(a.weights, b.weights)
      && CheckAttributes(a.lengths, b.lengths)
      && CheckAttributes(a.offsets, b.offsets);
  }
}
