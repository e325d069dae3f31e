// `KeyedJaggedTensor`: one jagged tensor per key, laid out key-major in flat
// buffers.
//
// The keys, the value and weight buffers and the stride fields never change
// after construction. The row arrays (`lengths`, `offsets`) and the derived
// per-key lists and maps are lazy caches: an accessor computes a missing one
// and stores it back. `Valid()` is the valid-input contract of the class; every
// method keeps it and keeps `Data()`, the data the instance stands for, so
// the caches only ever hold what they would compute.

module KeyedJagged {
  import opened Wrappers
  import opened Prefix
  import opened Segments
  import opened Jagged
  import opened KjtSpec
  import opened KjtOps
  import opened Dist

  /** The keys and dense indices `inverse_indices` carries for variable-batch embedding output. */
  datatype InverseIndices = InverseIndices(keys: seq<string>, indices: seq<int>)

  /** The lazily filled fields of a KJT. */
  datatype CacheState = CacheState(lengths: Option<seq<int>>, offsets: Option<seq<int>>,
                                   lengthPerKey: Option<seq<int>>, offsetPerKey: Option<seq<int>>,
                                   indexPerKey: Option<map<string, int>>,
                                   jtDict: Option<map<string, JaggedTensor>>, lengthsOffsetPerKey: seq<int>)

  /** What a jagged tensor object holds: its buffers and its rows. */
  ghost function JtOf(jt: JaggedTensor): Jt
    reads jt
  {
    Jt(jt.values, jt.weights, jt.RowLengths())
  }

  /** Some segment of a split takes neither none nor all of the keys, so rows must be sliced. */
  predicate SomeWindow(segments: seq<int>, numKeys: int)
  {
    exists k :: 0 <= k < |segments| && segments[k] != 0 && segments[k] != numKeys
  }

  lemma WindowNeedsRows(segments: seq<int>, numKeys: int, i: int)
    requires 0 <= i < |segments| && segments[i] != 0 && segments[i] != numKeys
    ensures SomeWindow(segments, numKeys)
  {
  }

  /** A valid jagged tensor object that holds the given data. */
  ghost predicate Holds(jt: JaggedTensor, j: Jt)
    reads jt
  {
    jt.Valid() && JtOf(jt) == j
  }

  /** One `JaggedTensor(values, weights, lengths, offsets)` of the binding loop, offsets from the lengths. */
  method NewRowTensor(v: seq<int>, w: Option<seq<int>>, length: seq<int>) returns (jt: JaggedTensor)
    requires JtValid(Jt(v, w, length))
    ensures fresh(jt) && Holds(jt, Jt(v, w, length))
  {
    LengthsOfCumsum(length);
    jt := new JaggedTensor(v, w, Some(length), Some(CompleteCumsum(length)));
  }

  /**
   * The binding loop of `_maybe_compute_kjt_to_jt_dict`: key i, in order, is
   * bound to a new tensor of value block i, weight block i and row block i,
   * with those lengths and their offsets; a later duplicate key rebinds.
   */
  method BindTensors(keys: seq<string>, vals: seq<seq<int>>, wts: Option<seq<seq<int>>>, rows: seq<seq<int>>)
    returns (d: map<string, JaggedTensor>)
    requires |keys| <= |vals| && |keys| <= |rows| && (wts.Some? ==> |keys| <= |wts.value|)
    requires forall i :: 0 <= i < |keys| ==>
               JtValid(Jt(vals[i], if wts.Some? then Some(wts.value[i]) else None, rows[i]))
    ensures d.Keys == JtDictLoop(keys, vals, wts, rows, |keys|).Keys
    ensures forall key :: key in d ==>
              fresh(d[key]) && d[key].Valid() && JtOf(d[key]) == JtDictLoop(keys, vals, wts, rows, |keys|)[key]
  {
    d := map[];
    ghost var g: map<string, Jt> := map[];
    var i := 0;
    while i < |keys|
      invariant 0 <= i <= |keys|
      invariant g == JtDictLoop(keys, vals, wts, rows, i)
      invariant d.Keys == g.Keys
      invariant forall key :: key in d ==> fresh(d[key]) && Holds(d[key], g[key])
    {
      var w := if wts.Some? then Some(wts.value[i]) else None;
      var jt := NewRowTensor(vals[i], w, rows[i]);
      d := d[keys[i] := jt];
      g := g[keys[i] := Jt(vals[i], w, rows[i])];
      i := i + 1;
    }
  }

  /** The data a list of KJTs stands for. */
  ghost function DataOf(kjts: seq<KeyedJaggedTensor>): (r: seq<Content>)
    reads kjts
    ensures |r| == |kjts|
  {
    seq(|kjts|, i requires 0 <= i < |kjts| reads kjts => kjts[i].Data())
  }

  /** The per-key lengths each KJT of a list has cached. */
  ghost function CachedLengthPerKey(kjts: seq<KeyedJaggedTensor>): (r: seq<Option<seq<int>>>)
    reads kjts
    ensures |r| == |kjts|
  {
    seq(|kjts|, i requires 0 <= i < |kjts| reads kjts => kjts[i].lengthPerKey)
  }

  /**
   * `k` is the KJT `concat` returns for KJTs of data `cs` and cached per-key
   * lengths `cached`: it holds their concatenation, its lengths are filled in,
   * and it has per-key lengths exactly when every input had them cached.
   */
  ghost predicate ConcatOf(k: KeyedJaggedTensor, cs: seq<Content>, cached: seq<Option<seq<int>>>)
    reads k, k.DictTensors()
  {
    && |cs| > 0 && k.Valid() && k.Data() == ConcatContent(cs)
    && k.Caches() == CacheState(Some(k.Data().lengths), None,
                                if forall j :: 0 <= j < |cached| ==> cached[j].Some?
                                then Some(KeyLengths(k.Data())) else None,
                                None, None, None, [])
    && k.inverseIndices == None
  }

  /** What validity says about each KJT of a list, in terms of the data and caches the list stands for. */
  lemma ListFacts(kjts: seq<KeyedJaggedTensor>)
    requires forall i :: 0 <= i < |kjts| ==> kjts[i].Valid()
    ensures forall j :: 0 <= j < |kjts| ==>
              && WellFormed(DataOf(kjts)[j])
              && DataOf(kjts)[j].strides.variable == kjts[j].variableStridePerKey
              && DataOf(kjts)[j].weights == kjts[j].weights
              && CachedLengthPerKey(kjts)[j] == kjts[j].lengthPerKey
              && (kjts[j].lengthPerKey.Some? ==> kjts[j].lengthPerKey.value == KeyLengths(DataOf(kjts)[j]))
  {
  }

  /**
   * The loop of `concat` over KJTs of one stride mode: each KJT's data is
   * checked against the first one's and appended to the lists, and its cached
   * per-key lengths to the per-key lengths while every KJT so far had them.
   */
  method ConcatInputs(kjts: seq<KeyedJaggedTensor>, ghost cs: seq<Content>, ghost cached: seq<Option<seq<int>>>,
                      isWeighted: bool, variable: bool)
    returns (err: Option<Error>, lists: ConcatLists, lengthPerKey: Option<seq<int>>)
    requires |kjts| == |cs| == |cached| > 0
    requires forall j :: 0 <= j < |kjts| ==> kjts[j].Data() == cs[j] && kjts[j].lengthPerKey == cached[j]
    requires isWeighted == cs[0].weights.Some? && variable == cs[0].strides.variable
    ensures err == ConcatScan(cs, 0)
    ensures err.None? ==> lists == ListsAfter(cs, |cs|) && lengthPerKey == LengthPerKeyAfter(cached, |cs|)
    ensures err.None? ==> forall j :: 0 <= j < |cs| ==> MatchesFirst(cs, j)
  {
    lists := ConcatLists([], [], [], [], [], None);
    lengthPerKey := Some([]);
    var i := 0;
    while i < |kjts|
      invariant 0 <= i <= |kjts|
      invariant forall j :: 0 <= j < i ==> MatchesFirst(cs, j)
      invariant lists == ListsAfter(cs, i) && lengthPerKey == LengthPerKeyAfter(cached, i)
      invariant !variable ==> lists.stride == if i == 0 then None else Some(cs[0].strides.stride)
    {
      var c := kjts[i].Data();
      assert c == cs[i];
      if c.weights.Some? != isWeighted {
        ConcatScanSkips(cs, 0, i);
        return Some(ValueError(MixedWeightsMessage)), lists, lengthPerKey;
      }
      var own := kjts[i].lengthPerKey;
      assert own == cached[i];
      lengthPerKey := if own.None? || lengthPerKey.None? then None else Some(lengthPerKey.value + own.value);
      if !variable && lists.stride.Some? && lists.stride.value != c.strides.stride {
        ConcatScanSkips(cs, 0, i);
        return Some(AssertionError(MixedStridesMessage)), lists, lengthPerKey;
      }
      lists := AppendRound(lists, c, isWeighted, variable);
      i := i + 1;
    }
    ConcatScanSkips(cs, 0, i);
    err := None;
  }

  /**
   * `KeyedJaggedTensor.concat`: keys, values, weights, lengths and, in
   * variable-stride mode, per-rank strides laid end to end; the per-key
   * lengths are passed on when every input has them cached. Raises on an
   * empty list, on mixed stride modes, and, KJT by KJT, on mixed
   * weightedness or a differing stride.
   */
  method Concat(kjts: seq<KeyedJaggedTensor>) returns (r: Result<KeyedJaggedTensor, Error>)
    requires forall i :: 0 <= i < |kjts| ==> kjts[i].Valid()
    ensures r.Failure? ==> ConcatCheck(DataOf(kjts)) == Some(r.error)
    ensures r.Success? ==> ConcatCheck(DataOf(kjts)).None?
    ensures r.Success? ==> fresh(r.value) && ConcatOf(r.value, DataOf(kjts), CachedLengthPerKey(kjts))
  {
    if |kjts| == 0 {
      return Failure(ValueError(EmptyListMessage));
    }
    ListFacts(kjts);
    r := ConcatNonEmpty(kjts, DataOf(kjts), CachedLengthPerKey(kjts));
  }

  /** `concat` past its empty-list check, given what validity says about each input. */
  method ConcatNonEmpty(kjts: seq<KeyedJaggedTensor>, ghost cs: seq<Content>, ghost cached: seq<Option<seq<int>>>)
    returns (r: Result<KeyedJaggedTensor, Error>)
    requires |kjts| == |cs| == |cached| > 0
    requires forall j :: 0 <= j < |kjts| ==>
               && kjts[j].Data() == cs[j] && kjts[j].lengthPerKey == cached[j] && WellFormed(cs[j])
               && cs[j].strides.variable == kjts[j].variableStridePerKey && cs[j].weights == kjts[j].weights
               && (cached[j].Some? ==> cached[j].value == KeyLengths(cs[j]))
    ensures r.Failure? ==> ConcatCheck(cs) == Some(r.error)
    ensures r.Success? ==> ConcatCheck(cs).None?
    ensures r.Success? ==> fresh(r.value) && ConcatOf(r.value, cs, cached)
  {
    var mixed, variable := StrideModes(kjts, cs);
    if mixed {
      return Failure(AssertionError(MixedModesMessage));
    }
    var isWeighted := kjts[0].weights.Some?;
    var err, lists, lengthPerKey := ConcatInputs(kjts, cs, cached, isWeighted, variable);
    if err.Some? {
      return Failure(err.value);
    }
    ConcatCheckPasses(cs);
    var kjt := ConcatBuild(cs, cached, lists, lengthPerKey, isWeighted, variable);
    r := Success(kjt);
  }

  /** The KJT `concat` builds from the lists its loop gathered. */
  method ConcatBuild(ghost cs: seq<Content>, ghost cached: seq<Option<seq<int>>>, lists: ConcatLists,
                            lengthPerKey: Option<seq<int>>, isWeighted: bool, variable: bool)
    returns (kjt: KeyedJaggedTensor)
    requires |cs| == |cached| > 0 && Compatible(cs) && forall j :: 0 <= j < |cs| ==> WellFormed(cs[j])
    requires isWeighted == cs[0].weights.Some? && variable == cs[0].strides.variable
    requires forall j :: 0 <= j < |cs| ==> cached[j].Some? ==> cached[j].value == KeyLengths(cs[j])
    requires lists == ListsAfter(cs, |cs|) && lengthPerKey == LengthPerKeyAfter(cached, |cs|)
    ensures fresh(kjt) && kjt.Valid() && kjt.Data() == ConcatContent(cs)
    ensures kjt.Caches() == CacheState(Some(kjt.Data().lengths), None,
                                       if forall j :: 0 <= j < |cached| ==> cached[j].Some?
                                       then Some(KeyLengths(kjt.Data())) else None,
                                       None, None, None, [])
    ensures kjt.inverseIndices == None
  {
    assert cs[..|cs|] == cs;
    ConcatWellFormed(cs);
    ListsAfterBuffers(cs, |cs|);
    ListsAfterModes(cs, |cs|);
    LengthPerKeyAfterFlatten(cs, cached, |cs|);
    var stride := if lists.stride.Some? then lists.stride.value else 0;
    var strides := PassStrides(|lists.keys|, variable, stride, lists.stridePerKeyPerRank);
    kjt := new KeyedJaggedTensor(lists.keys, lists.values, if isWeighted then Some(lists.weights) else None,
                                 Some(lists.lengths), None, strides, lengthPerKey, None, None, None, None);
    assert kjt.Data() == ConcatContent(cs);
  }

  /** The stride-mode check of `concat`: all KJTs are in variable-stride mode, or none is. */
  method StrideModes(kjts: seq<KeyedJaggedTensor>, ghost cs: seq<Content>) returns (mixed: bool, variable: bool)
    requires |kjts| == |cs| > 0
    requires forall j :: 0 <= j < |kjts| ==> cs[j].strides.variable == kjts[j].variableStridePerKey
    ensures mixed <==> exists i :: 0 <= i < |cs| && cs[i].strides.variable != cs[0].strides.variable
    ensures !mixed ==> variable == cs[0].strides.variable
  {
    variable := forall i :: 0 <= i < |kjts| ==> kjts[i].variableStridePerKey;
    var anyVariable := exists i :: 0 <= i < |kjts| && kjts[i].variableStridePerKey;
    mixed := !variable && anyVariable;
  }

  /** `KeyedJaggedTensor.empty`: no keys, no values, empty lengths and stride 0. */
  method Empty(isWeighted: bool) returns (k: KeyedJaggedTensor)
    ensures fresh(k) && k.Valid() && k.inverseIndices == None
    ensures k.Data() == Content([], [], if isWeighted then Some([]) else None, [], UniformStrides(0, 0))
    ensures k.Caches() == CacheState(Some([]), None, None, None, None, None, [])
  {
    UniformStridesValid(0, 0);
    k := new KeyedJaggedTensor([], [], if isWeighted then Some([]) else None, Some([]), None,
                               InitStrides(0, Some(0), None, Some([]), None).value, None, None, None, None, None);
  }

  /**
   * `KeyedJaggedTensor.empty_like`: no keys and empty buffers, weighted like
   * `kjt`, and `kjt`'s stride arguments: its stride in uniform mode, its
   * per-rank strides in variable mode. Reading the lengths' dtype fills in
   * `kjt`'s lengths. In variable mode the per-rank strides still list one
   * entry per key of `kjt`, so the result is valid only when `kjt` has no keys.
   */
  method EmptyLike(kjt: KeyedJaggedTensor) returns (k: KeyedJaggedTensor)
    requires kjt.Valid()
    modifies kjt
    ensures kjt.Valid() && kjt.Data() == old(kjt.Data())
    ensures kjt.Caches() == old(kjt.Caches()).(lengths := Some(kjt.Data().lengths))
    ensures fresh(k) && k.inverseIndices == None
    ensures k.Data() == Content([], [], if kjt.weights.Some? then Some([]) else None, [],
                                if kjt.variableStridePerKey then VariableStrides(kjt.stridePerKeyPerRank)
                                else UniformStrides(0, kjt.stride))
    ensures k.Caches() == CacheState(Some([]), None, None, None, None, None, [])
    ensures k.Valid() <==> !kjt.variableStridePerKey || kjt.keys == []
  {
    var _ := kjt.Lengths();
    var strides := InitStrides(0, if kjt.variableStridePerKey then None else Some(kjt.stride),
                               if kjt.variableStridePerKey then Some(kjt.stridePerKeyPerRank) else None,
                               Some([]), None).value;
    if !kjt.variableStridePerKey {
      UniformStridesValid(0, kjt.stride);
    }
    k := new KeyedJaggedTensor([], [], if kjt.weights.Some? then Some([]) else None, Some([]), None,
                               strides, None, None, None, None, None);
    if kjt.variableStridePerKey && kjt.keys != [] {
      assert |k.stridePerKeyPerRank| == |kjt.keys| > 0;
    } else {
      assert StridesValid(0, strides);
      assert WellFormed(k.Data()) && RowsValid(0, k.stridePerKey, k.lengths, k.offsets);
    }
  }

  /** The key loop of `kjt_is_equal`: same number of keys, and pairwise equal in order. */
  method KeysEqual(x: seq<string>, y: seq<string>) returns (r: bool)
    ensures r <==> x == y
  {
    if |x| != |y| {
      return false;
    }
    var i := 0;
    while i < |x|
      invariant 0 <= i <= |x|
      invariant x[..i] == y[..i]
    {
      if x[i] != y[i] {
        return false;
      }
      i := i + 1;
    }
    assert x == x[..i] && y == y[..i];
    r := true;
  }

  /** A valid KJT whose lengths, the given offsets and the per-key lists are stored. */
  ghost predicate Compared(k: KeyedJaggedTensor, offsets: seq<int>)
    reads k, k.DictTensors()
  {
    && k.Valid()
    && k.lengths == Some(k.Data().lengths) && k.offsets == Some(offsets)
    && k.lengthPerKey == Some(KeyLengths(k.Data())) && k.offsetPerKey == Some(ValueOffsets(k.Data()))
  }

  /** Both sides of `kjt_is_equal` forced and synced; `a` and `b` may be the same KJT. */
  method PrepareBoth(a: KeyedJaggedTensor, b: KeyedJaggedTensor)
    requires a.Valid() && b.Valid()
    modifies a, b
    ensures a.Valid() && a.Data() == old(a.Data()) && b.Valid() && b.Data() == old(b.Data())
    ensures Compared(a, old(RowOffsetsOf(a.lengths, a.offsets))) && Compared(b, old(RowOffsetsOf(b.lengths, b.offsets)))
  {
    if a == b {
      a.PrepareForComparison();
      a.PrepareForComparison();
    } else {
      a.PrepareForComparison();
      b.PrepareForComparison();
    }
  }

  /**
   * `kjt_is_equal`: the keys must agree in number and order and the values
   * must agree; then both KJTs get lengths, offsets and the per-key caches
   * filled in, and lengths, weights, offsets, per-key lengths and offsets and
   * the stride are compared.
   */
  method KjtIsEqual(a: KeyedJaggedTensor, b: KeyedJaggedTensor) returns (r: bool)
    requires a.Valid() && b.Valid()
    modifies a, b
    ensures a.Valid() && a.Data() == old(a.Data()) && b.Valid() && b.Data() == old(b.Data())
    ensures r <==> && a.keys == b.keys && a.values == b.values && a.weights == b.weights
                   && old(a.Data()).lengths == old(b.Data()).lengths
                   && old(RowOffsetsOf(a.lengths, a.offsets)) == old(RowOffsetsOf(b.lengths, b.offsets))
                   && KeyLengths(old(a.Data())) == KeyLengths(old(b.Data())) && a.stride == b.stride
    ensures old(a.Data()) == old(b.Data()) && old(a.Data()).lengths != [] ==> r
  {
    var sameKeys := KeysEqual(a.keys, b.keys);
    if !sameKeys || !CheckAttributes(Some(a.values), Some(b.values)) {
      return false;
    }
    PrepareBoth(a, b);
    r := CheckAttributes(a.lengths, b.lengths) && CheckAttributes(a.weights, b.weights)
      && CheckAttributes(a.offsets, b.offsets) && CheckAttributes(a.lengthPerKey, b.lengthPerKey)
      && CheckAttributes(a.offsetPerKey, b.offsetPerKey) && a.stride == b.stride;
  }

  /** The data of a list of jagged tensors. */
  ghost function JtsOf(jts: seq<JaggedTensor>): (r: seq<Jt>)
    reads jts
    ensures |r| == |jts|
  {
    seq(|jts|, i requires 0 <= i < |jts| reads jts => JtOf(jts[i]))
  }

  /** `jts[i].lengths()` inside the `from_jt_dict` loop: only that tensor's lengths change, to its row lengths. */
  method FetchLengths(jts: seq<JaggedTensor>, i: int, ghost ds: seq<Jt>) returns (l: seq<int>)
    requires |jts| == |ds| && 0 <= i < |jts|
    requires forall j :: 0 <= j < |jts| ==> jts[j].Valid() && JtOf(jts[j]) == ds[j]
    modifies jts[i]
    ensures l == ds[i].lengths
    ensures forall j :: 0 <= j < |jts| ==>
              && jts[j].Valid() && JtOf(jts[j]) == ds[j] && jts[j].offsets == old(jts[j].offsets)
              && jts[j].lengths == (if jts[j] == jts[i] then Some(ds[j].lengths) else old(jts[j].lengths))
  {
    l := jts[i].Lengths();
  }

  /**
   * The loop of `from_jt_dict` over the dict's tensors: each tensor's row
   * count, values, lengths (filled in on the tensor) and, when present,
   * weights are appended to their lists.
   */
  method FromJtLists(jts: seq<JaggedTensor>, ghost ds: seq<Jt>) returns (lists: JtLists)
    requires |jts| == |ds|
    requires forall j :: 0 <= j < |jts| ==> jts[j].Valid() && JtOf(jts[j]) == ds[j]
    modifies set j | 0 <= j < |jts| :: jts[j]
    ensures forall j :: 0 <= j < |jts| ==>
              jts[j].Valid() && JtOf(jts[j]) == ds[j] && jts[j].lengths == Some(ds[j].lengths)
              && jts[j].offsets == old(jts[j].offsets)
    ensures lists == JtListsAfter(ds, |ds|)
  {
    lists := JtLists([], [], [], []);
    var i := 0;
    while i < |jts|
      invariant 0 <= i <= |jts|
      invariant forall j :: 0 <= j < |jts| ==>
                  jts[j].Valid() && JtOf(jts[j]) == ds[j] && jts[j].offsets == old(jts[j].offsets)
      invariant forall j :: 0 <= j < i ==> jts[j].lengths == Some(ds[j].lengths)
      invariant lists == JtListsAfter(ds, i)
    {
      var l := FetchLengths(jts, i, ds);
      var jt := jts[i];
      assert Jt(jt.values, jt.weights, l) == ds[i];
      lists := AppendJt(lists, Jt(jt.values, jt.weights, l));
      i := i + 1;
    }
  }

  /**
   * `KeyedJaggedTensor.from_jt_dict`, the dict given as its keys and tensors
   * in insertion order: the KJT `FromJtsContent` describes, synced. An empty
   * dict fails in the concatenation.
   */
  method FromJtDict(keys: seq<string>, jts: seq<JaggedTensor>) returns (r: Result<KeyedJaggedTensor, Error>)
    requires |keys| == |jts|
    requires forall j :: 0 <= j < |jts| ==> jts[j].Valid()
    requires SameWeightedness(JtsOf(jts))
    modifies set j | 0 <= j < |jts| :: jts[j]
    ensures forall j :: 0 <= j < |jts| ==> jts[j].Valid() && JtOf(jts[j]) == old(JtOf(jts[j]))
    ensures r.Failure? <==> jts == []
    ensures r.Failure? ==> Failure(r.error) == FromJtsContent(keys, old(JtsOf(jts)))
    ensures r.Success? ==> && fresh(r.value) && r.value.Valid() && r.value.inverseIndices == None
                           && r.value.Data() == FromJtsContent(keys, old(JtsOf(jts))).value
                           && r.value.Caches() == CacheState(Some(r.value.Data().lengths), None,
                                                             Some(KeyLengths(r.value.Data())),
                                                             Some(ValueOffsets(r.value.Data())), None, None, [])
  {
    ghost var ds := JtsOf(jts);
    var lists := FromJtLists(jts, ds);
    if |jts| == 0 {
      return Failure(RuntimeError(EmptyCatMessage));
    }
    forall j | 0 <= j < |ds|
      ensures JtValid(ds[j])
    {
    }
    var k := FromJtBuild(keys, ds, lists);
    r := Success(k);
  }

  /** The synced KJT `from_jt_dict` builds from the lists its loop gathered. */
  method FromJtBuild(keys: seq<string>, ghost ds: seq<Jt>, lists: JtLists) returns (k: KeyedJaggedTensor)
    requires |keys| == |ds| > 0 && SameWeightedness(ds)
    requires forall j :: 0 <= j < |ds| ==> JtValid(ds[j])
    requires lists == JtListsAfter(ds, |ds|)
    ensures fresh(k) && k.Valid() && k.inverseIndices == None && k.Data() == FromJtsContent(keys, ds).value
    ensures k.Caches() == CacheState(Some(k.Data().lengths), None, Some(KeyLengths(k.Data())),
                                     Some(ValueOffsets(k.Data())), None, None, [])
  {
    JtListsAfterBuffers(ds, |ds|);
    JtListsAfterWeights(ds, |ds|);
    assert ds[..|ds|] == ds;
    FromJtsWellFormed(keys, ds);
    var spk := lists.spk;
    var uniform := forall j :: 0 <= j < |spk| ==> spk[j] == spk[0];
    var strides := PassStrides(|keys|, !uniform, spk[0], OneRankStrides(spk));
    k := new KeyedJaggedTensor(keys, Flatten(lists.vals), if |lists.wts| > 0 then Some(Flatten(lists.wts)) else None,
                               Some(Flatten(lists.lens)), None, strides, None, None, None, None, None);
    assert k.Data() == FromJtsContent(keys, ds).value;
    k.Sync();
  }

  /** Each KJT built so far is valid and holds the content at its position. */
  ghost predicate Built(pieces: seq<KeyedJaggedTensor>, contents: seq<Content>)
    reads pieces, Footprint(pieces)
  {
    && |pieces| == |contents|
    && forall j :: 0 <= j < |pieces| ==> pieces[j].Valid() && pieces[j].Data() == contents[j]
  }

  /** The cached jagged tensors of the pieces. */
  ghost function Footprint(pieces: seq<KeyedJaggedTensor>): set<object>
    reads pieces
  {
    set j, o | 0 <= j < |pieces| && o in pieces[j].DictTensors() :: o
  }

  lemma BuiltStep(pieces: seq<KeyedJaggedTensor>, contents: seq<Content>, p: KeyedJaggedTensor)
    requires Built(pieces, contents) && p.Valid()
    ensures Built(pieces + [p], contents + [p.Data()])
  {
    var ps, cs := pieces + [p], contents + [p.Data()];
    forall j | 0 <= j < |ps|
      ensures ps[j].Valid() && ps[j].Data() == cs[j]
    {
      if j < |pieces| {
        assert ps[j] == pieces[j] && cs[j] == contents[j];
      }
    }
  }

  lemma BuiltAt(pieces: seq<KeyedJaggedTensor>, contents: seq<Content>)
    requires Built(pieces, contents)
    ensures forall j :: 0 <= j < |pieces| ==> pieces[j].Valid() && pieces[j].Data() == contents[j]
  {
  }

  /**
   * `dist_labels`, `dist_splits` and `dist_tensors` line up: one label, one
   * split list and one tensor per position, distinct labels each naming the
   * tensor at its position, and, when `key_splits` cuts the keys, each split
   * list cutting its tensor.
   */
  lemma DistAligned(k: KeyedJaggedTensor, keySplits: seq<int>)
    requires WellFormed(k.Data()) && Partitions(keySplits, |k.keys|)
    ensures |k.DistLabels()| == |DistSplitsOf(k.Data(), keySplits)| == |DistTensorsOf(k.Data())|
    ensures forall i :: 0 <= i < |k.DistLabels()| ==> TensorNamed(k.Data(), k.DistLabels()[i]) == Some(DistTensorsOf(k.Data())[i])
    ensures forall i, j :: 0 <= i < j < |k.DistLabels()| ==> k.DistLabels()[i] != k.DistLabels()[j]
    ensures forall i :: 0 <= i < |DistTensorsOf(k.Data())| ==> Partitions(DistSplitsOf(k.Data(), keySplits)[i], |DistTensorsOf(k.Data())[i]|)
  {
    DistLabelsAligned(k.Data());
    DistSplitsCut(k.Data(), keySplits);
  }

  /** The stagger loop of `dist_init`: each key's per-rank strides, read again in staggered rank order. */
  method StaggerRanks(spkpr: seq<seq<int>>, localWorldSize: nat) returns (r: seq<seq<int>>)
    ensures r == StaggerEach(spkpr, localWorldSize)
  {
    r := [];
    for i := 0 to |spkpr|
      invariant |r| == i && forall k :: 0 <= k < i ==> r[k] == Staggered(spkpr[k], localWorldSize)
    {
      var row: seq<int> := [];
      for j := 0 to localWorldSize
        invariant row == StaggerPrefix(spkpr[i], localWorldSize, j)
      {
        row := row + StepSlice(spkpr[i], j, localWorldSize);
      }
      r := r + [row];
    }
  }

  /** `KeyedJaggedTensor(...).sync()` on received buffers that form a valid KJT. */
  method BuildSynced(keys: seq<string>, values: seq<int>, weights: Option<seq<int>>, lengths: seq<int>, strides: Strides)
    returns (k: KeyedJaggedTensor)
    requires WellFormed(Content(keys, values, weights, lengths, strides))
    ensures fresh(k) && k.Valid() && k.inverseIndices == None
    ensures k.Data() == Content(keys, values, weights, lengths, strides)
    ensures k.Caches() == CacheState(Some(lengths), None, Some(KeyLengths(k.Data())), Some(ValueOffsets(k.Data())), None, None, [])
  {
    k := new KeyedJaggedTensor(keys, values, weights, Some(lengths), None, strides, None, None, None, None, None);
    k.Sync();
  }

  /** `dist_init`, variable stride per key, once the stride tensor is present. */
  method DistInitVariable(keys: seq<string>, lengths: seq<int>, values: seq<int>, weights: Option<seq<int>>,
                          sprpk: seq<int>, numWorkers: nat, recat: Option<seq<int>>, stagger: int)
    returns (r: Result<KeyedJaggedTensor, Error>)
    requires Arrived(lengths, values, weights) && VariableSegmentsOk(|keys|, lengths, sprpk, numWorkers, recat)
    requires var c := VariableArrival(keys, lengths, values, weights, sprpk, numWorkers, recat, stagger);
      c.Success? ==> WellFormed(c.value)
    ensures var c := VariableArrival(keys, lengths, values, weights, sprpk, numWorkers, recat, stagger);
      && (r.Failure? <==> c.Failure?) && (r.Failure? ==> r.error == c.error)
      && (r.Success? ==>
            && fresh(r.value) && r.value.Valid() && r.value.Data() == c.value && r.value.inverseIndices == None
            && r.value.Caches() == CacheState(Some(c.value.lengths), None, Some(KeyLengths(c.value)), Some(ValueOffsets(c.value)), None, None, []))
  {
    if |sprpk| != numWorkers * |keys| {
      return Failure(RuntimeError(ViewMessage));
    }
    var spkpr := RanksToKeys(sprpk, numWorkers, |keys|);
    var (l, v, w) := VariableBuffers(lengths, values, weights, sprpk, recat);
    if spkpr == [] {
      spkpr := Repeat([0], |keys|);
    }
    if stagger > 1 {
      spkpr := StaggerRanks(spkpr, LocalWorldSize(numWorkers, stagger));
    }
    var strides := InitStrides(|keys|, None, Some(spkpr), Some(l), None).value;
    var kjt := BuildSynced(keys, v, w, l, strides);
    return Success(kjt);
  }

  /** `dist_init`, uniform stride, once `stride_per_rank` is present. */
  method DistInitUniform(keys: seq<string>, lengths: seq<int>, values: seq<int>, weights: Option<seq<int>>,
                         stridePerRank: seq<int>, recat: Option<seq<int>>)
    returns (r: Result<KeyedJaggedTensor, Error>)
    requires Arrived(lengths, values, weights) && UniformRecatOk(lengths, stridePerRank, recat)
    requires var c := UniformArrival(keys, lengths, values, weights, stridePerRank, recat);
      c.Success? ==> WellFormed(c.value)
    ensures var c := UniformArrival(keys, lengths, values, weights, stridePerRank, recat);
      && (r.Failure? <==> c.Failure?) && (r.Failure? ==> r.error == c.error)
      && (r.Success? ==>
            && fresh(r.value) && r.value.Valid() && r.value.Data() == c.value && r.value.inverseIndices == None
            && r.value.Caches() == CacheState(Some(c.value.lengths), None, Some(KeyLengths(c.value)), Some(ValueOffsets(c.value)), None, None, []))
  {
    var b := UniformBuffers(lengths, values, weights, stridePerRank, recat);
    if b.Failure? {
      return Failure(b.error);
    }
    var (l, v, w) := b.value;
    var strides := InitStrides(|keys|, Some(Sum(stridePerRank)), None, Some(l), None).value;
    var kjt := BuildSynced(keys, v, w, l, strides);
    return Success(kjt);
  }

  /**
   * `KeyedJaggedTensor.dist_init`: the KJT a rank rebuilds from the tensors
   * an all-to-all delivered, synced, or the error `dist_init` raises. The
   * received data must form a valid KJT, as it does when the recat regroups
   * the segments by key (`VariableArrivalByKey`, `UniformArrivalByKey`).
   */
  method DistInit(keys: seq<string>, tensors: seq<seq<int>>, variable: bool, numWorkers: nat,
                  recat: Option<seq<int>>, stridePerRank: Option<seq<int>>, stagger: int)
    returns (r: Result<KeyedJaggedTensor, Error>)
    requires DistArrived(|keys|, tensors, variable, numWorkers, recat, stridePerRank)
    requires var c := DistInitContent(keys, tensors, variable, numWorkers, recat, stridePerRank, stagger);
      c.Success? ==> WellFormed(c.value)
    ensures var c := DistInitContent(keys, tensors, variable, numWorkers, recat, stridePerRank, stagger);
      && (r.Failure? <==> c.Failure?) && (r.Failure? ==> r.error == c.error)
      && (r.Success? ==>
            && fresh(r.value) && r.value.Valid() && r.value.Data() == c.value && r.value.inverseIndices == None
            && r.value.Caches() == CacheState(Some(c.value.lengths), None, Some(KeyLengths(c.value)), Some(ValueOffsets(c.value)), None, None, []))
  {
    if |tensors| < 2 || |tensors| > 4 {
      return Failure(AssertionError(""));
    }
    var weights := ArrivedWeights(tensors, variable);
    if variable {
      if |tensors| == 2 {
        return Failure(IndexError);
      }
      r := DistInitVariable(keys, tensors[0], tensors[1], weights, tensors[2], numWorkers, recat, stagger);
    } else {
      if stridePerRank.None? {
        return Failure(AssertionError(""));
      }
      r := DistInitUniform(keys, tensors[0], tensors[1], weights, stridePerRank.value, recat);
    }
  }

  class KeyedJaggedTensor {
    const keys: seq<string>
    const values: seq<int>
    const weights: Option<seq<int>>
    const stride: int
    const stridePerKeyPerRank: seq<seq<int>>
    const stridePerKey: seq<int>
    const variableStridePerKey: bool
    const inverseIndices: Option<InverseIndices>
    var lengths: Option<seq<int>>
    var offsets: Option<seq<int>>
    var lengthPerKey: Option<seq<int>>
    var offsetPerKey: Option<seq<int>>
    var indexPerKey: Option<map<string, int>>
    var jtDict: Option<map<string, JaggedTensor>>
    /** `_lengths_offset_per_key`; the empty list means not yet computed. */
    var lengthsOffsetPerKey: seq<int>

    function StrideFields(): Strides
    {
      Strides(stride, stridePerKeyPerRank, stridePerKey, variableStridePerKey)
    }

    function Data(): Content
      reads this`lengths, this`offsets
    {
      Content(keys, values, weights, RowLengthsOf(lengths, offsets), StrideFields())
    }

    /** The fields an accessor may fill in or drop. */
    ghost function Caches(): CacheState
      reads this
    {
      CacheState(lengths, offsets, lengthPerKey, offsetPerKey, indexPerKey, jtDict, lengthsOffsetPerKey)
    }

    /** The jagged tensors of the cached `to_dict` result. */
    ghost function DictTensors(): set<JaggedTensor>
      reads this`jtDict
    {
      if jtDict.Some? then jtDict.value.Values else {}
    }

    /** Each cache, when present, holds what its accessor would compute. */
    ghost predicate CachesValid()
      reads this`lengths, this`offsets, this`lengthPerKey, this`offsetPerKey, this`indexPerKey, this`lengthsOffsetPerKey
      requires WellFormed(Data())
    {
      && (lengthPerKey.Some? ==> lengthPerKey.value == KeyLengths(Data()))
      && (offsetPerKey.Some? ==> offsetPerKey.value == ValueOffsets(Data()))
      && (indexPerKey.Some? ==> indexPerKey.value == IndexPerKey(keys))
      && (lengthsOffsetPerKey == [] || lengthsOffsetPerKey == RowOffsets(Data()))
    }

    /** The cached `to_dict` result maps every key to a valid tensor holding that key's data. */
    ghost predicate DictValid()
      reads this`lengths, this`offsets, this`jtDict, DictTensors()
      requires WellFormed(Data())
    {
      jtDict.Some? ==>
        && jtDict.value.Keys == JtDictContent(Data()).Keys
        && (forall key :: key in jtDict.value ==> Holds(jtDict.value[key], JtDictContent(Data())[key]))
    }

    ghost predicate Valid()
      reads this, DictTensors()
    {
      && WellFormed(Data())
      && RowsValid(|keys|, stridePerKey, lengths, offsets)
      && CachesValid()
      && DictValid()
    }

    /** `__init__` once the stride arguments have been resolved into stride fields. */
    constructor (keys: seq<string>, values: seq<int>, weights: Option<seq<int>>,
                 lengths: Option<seq<int>>, offsets: Option<seq<int>>, strides: Strides,
                 lengthPerKey: Option<seq<int>>, offsetPerKey: Option<seq<int>>,
                 indexPerKey: Option<map<string, int>>, jtDict: Option<map<string, JaggedTensor>>,
                 inverseIndices: Option<InverseIndices>)
      ensures this.keys == keys && this.values == values && this.weights == weights
      ensures this.lengths == lengths && this.offsets == offsets && StrideFields() == strides
      ensures this.lengthPerKey == lengthPerKey && this.offsetPerKey == offsetPerKey
      ensures this.indexPerKey == indexPerKey && this.jtDict == jtDict
      ensures this.inverseIndices == inverseIndices && this.lengthsOffsetPerKey == []
    {
      this.keys := keys;
      this.values := values;
      this.weights := weights;
      this.lengths := lengths;
      this.offsets := offsets;
      this.stride := strides.stride;
      this.stridePerKeyPerRank := strides.stridePerKeyPerRank;
      this.stridePerKey := strides.stridePerKey;
      this.variableStridePerKey := strides.variable;
      this.lengthPerKey := lengthPerKey;
      this.offsetPerKey := offsetPerKey;
      this.indexPerKey := indexPerKey;
      this.jtDict := jtDict;
      this.inverseIndices := inverseIndices;
      this.lengthsOffsetPerKey := [];
    }

    /**
     * `KeyedJaggedTensor(...)`: raises ValueError when both `stride` and
     * `stride_per_key_per_rank` are given; otherwise the stride fields are the
     * ones `InitStrides` derives and every other argument is stored as given.
     */
    static method New(keys: seq<string>, values: seq<int>, weights: Option<seq<int>>,
                      lengths: Option<seq<int>>, offsets: Option<seq<int>>,
                      stride: Option<int>, stridePerKeyPerRank: Option<seq<seq<int>>>,
                      lengthPerKey: Option<seq<int>>, offsetPerKey: Option<seq<int>>,
                      indexPerKey: Option<map<string, int>>, jtDict: Option<map<string, JaggedTensor>>,
                      inverseIndices: Option<InverseIndices>)
      returns (r: Result<KeyedJaggedTensor, Error>)
      ensures r.Failure? <==> stride.Some? && stridePerKeyPerRank.Some?
      ensures r.Failure? ==> r.error == InitStrides(|keys|, stride, stridePerKeyPerRank, lengths, offsets).error
      ensures r.Success? ==> (
        && fresh(r.value)
        && r.value.StrideFields() == InitStrides(|keys|, stride, stridePerKeyPerRank, lengths, offsets).value
        && r.value.keys == keys && r.value.values == values && r.value.weights == weights
        && r.value.lengths == lengths && r.value.offsets == offsets
        && r.value.lengthPerKey == lengthPerKey && r.value.offsetPerKey == offsetPerKey
        && r.value.indexPerKey == indexPerKey && r.value.jtDict == jtDict
        && r.value.inverseIndices == inverseIndices && r.value.lengthsOffsetPerKey == [])
    {
      var strides := InitStrides(|keys|, stride, stridePerKeyPerRank, lengths, offsets);
      if strides.Failure? {
        return Failure(strides.error);
      }
      var kjt := new KeyedJaggedTensor(keys, values, weights, lengths, offsets, strides.value,
                                       lengthPerKey, offsetPerKey, indexPerKey, jtDict, inverseIndices);
      return Success(kjt);
    }

    /** `lengths()`: the stored lengths, else the differences of the offsets, stored back. */
    method Lengths() returns (r: seq<int>)
      requires Valid()
      modifies this
      ensures Valid() && Data() == old(Data())
      ensures r == old(Data()).lengths && Caches() == old(Caches()).(lengths := Some(r))
      ensures old(lengths).Some? ==> r == old(lengths).value
    {
      r := MaybeComputeLengths(lengths, offsets).value;
      lengths := Some(r);
    }

    /** `offsets()`: the stored offsets, else the complete cumsum of the lengths, stored back. */
    method Offsets() returns (r: seq<int>)
      requires Valid()
      modifies this
      ensures Valid() && Data() == old(Data())
      ensures OffsetsAgree(Some(r), old(Data()).lengths) && Caches() == old(Caches()).(offsets := Some(r))
      ensures old(offsets).Some? ==> r == old(offsets).value
      ensures old(offsets).None? ==> r == CompleteCumsum(old(Data()).lengths)
    {
      r := MaybeComputeOffsets(lengths, offsets).value;
      offsets := Some(r);
      if old(offsets).None? {
        LengthsOfCumsum(old(lengths).value);
      }
    }

    /** `_key_indices()`: each key's position, the last occurrence winning, cached. */
    method KeyIndices() returns (r: map<string, int>)
      requires Valid()
      modifies this
      ensures Valid() && Data() == old(Data())
      ensures r == IndexPerKey(keys) && Caches() == old(Caches()).(indexPerKey := Some(r))
    {
      if indexPerKey.Some? {
        r := indexPerKey.value;
      } else {
        r := IndexPerKey(keys);
        indexPerKey := Some(r);
      }
    }

    /**
     * `length_per_key()`: the cached list, else the sums of each key's block of
     * rows, taken from the offsets when they are stored and non-empty, else from
     * the lengths. Where the code as written raises RuntimeError (uniform
     * stride 0 with stored non-empty offsets), the model takes the corrected
     * behaviour of the first finding: the keys' blocks are empty and each sum is 0.
     */
    method LengthPerKey() returns (r: seq<int>)
      requires Valid()
      modifies this
      ensures Valid() && Data() == old(Data())
      ensures r == KeyLengths(Data()) && Caches() == old(Caches()).(lengthPerKey := Some(r))
      ensures old(lengthPerKey).Some? ==> r == old(lengthPerKey).value
    {
      if lengthPerKey.Some? {
        r := lengthPerKey.value;
      } else {
        var computed := LengthPerKeyAsWritten(|keys|, stride, stridePerKey, variableStridePerKey, lengths, offsets);
        LengthPerKeyAsWrittenAgrees(|keys|, StrideFields(), lengths, offsets);
        if computed.Success? {
          r := computed.value;
        } else {
          UniformLayout(|keys|, stride);
          UniformRowSums(|keys|, stride, Data().lengths);
          r := Repeat(0, |keys|);
        }
        lengthPerKey := Some(r);
      }
    }

    /**
     * `offset_per_key()`: with no cached per-key lengths both lists are
     * computed; with cached lengths only, the offsets are their cumsum; with
     * both cached nothing is computed.
     */
    method OffsetPerKey() returns (r: seq<int>)
      requires Valid()
      modifies this
      ensures Valid() && Data() == old(Data())
      ensures r == ValueOffsets(Data())
      ensures Caches() == old(Caches()).(lengthPerKey := Some(KeyLengths(Data())), offsetPerKey := Some(r))
      ensures old(lengthPerKey).Some? && old(offsetPerKey).Some? ==> r == old(offsetPerKey).value
    {
      if lengthPerKey.None? {
        var lpk := LengthPerKey();
        r := Cumsum(lpk);
      } else if offsetPerKey.None? {
        r := Cumsum(lengthPerKey.value);
      } else {
        r := offsetPerKey.value;
      }
      offsetPerKey := Some(r);
    }

    /** `lengths_offset_per_key()`: the cumsum of `stride_per_key`, computed while the cache is empty. */
    method LengthsOffsetPerKey() returns (r: seq<int>)
      requires Valid()
      modifies this
      ensures Valid() && Data() == old(Data())
      ensures r == RowOffsets(Data()) && Caches() == old(Caches()).(lengthsOffsetPerKey := r)
    {
      if lengthsOffsetPerKey == [] {
        lengthsOffsetPerKey := Cumsum(stridePerKey);
      }
      r := lengthsOffsetPerKey;
    }

    /** `_force_length_offset_computation`: whichever of lengths and offsets is missing is filled in. */
    method ForceLengthOffsetComputation()
      requires Valid()
      modifies this
      ensures Valid() && Data() == old(Data())
      ensures Caches() == old(Caches()).(lengths := Some(Data().lengths), offsets := Some(old(RowOffsetsOf(lengths, offsets))))
    {
      if offsets.Some? && lengths.None? {
        var _ := Lengths();
      } else if lengths.Some? && offsets.None? {
        var _ := Offsets();
      }
    }

    /** What `kjt_is_equal` does to each side: `_force_length_offset_computation`, then `sync()`. */
    method PrepareForComparison()
      requires Valid()
      modifies this
      ensures Valid() && Data() == old(Data())
      ensures Caches() == old(Caches()).(lengths := Some(Data().lengths), offsets := Some(old(RowOffsetsOf(lengths, offsets))),
                                         lengthPerKey := Some(KeyLengths(Data())), offsetPerKey := Some(ValueOffsets(Data())))
    {
      ForceLengthOffsetComputation();
      Sync();
    }

    /** `sync()`: fills the per-key length and offset caches. */
    method Sync()
      requires Valid()
      modifies this
      ensures Valid() && Data() == old(Data())
      ensures Caches() == old(Caches()).(lengthPerKey := Some(KeyLengths(Data())), offsetPerKey := Some(ValueOffsets(Data())))
    {
      var _ := LengthPerKey();
      var _ := OffsetPerKey();
    }

    /** `unsync()`: drops the per-key length and offset caches. */
    method Unsync()
      requires Valid()
      modifies this
      ensures Valid() && Data() == old(Data())
      ensures Caches() == old(Caches()).(lengthPerKey := None, offsetPerKey := None)
    {
      lengthPerKey := None;
      offsetPerKey := None;
    }

    /** `dist_labels()`: the names of the tensors `dist_tensors` sends, in order. */
    function DistLabels(): seq<string>
      reads this`lengths, this`offsets
    {
      DistLabelsOf(Data())
    }

    /** `dist_splits(key_splits)`: reading the per-key lengths fills in their cache. */
    method DistSplits(keySplits: seq<int>) returns (r: seq<seq<int>>)
      requires Valid() && AllNonNeg(keySplits)
      modifies this
      ensures Valid() && Data() == old(Data())
      ensures r == DistSplitsOf(Data(), keySplits)
      ensures Caches() == old(Caches()).(lengthPerKey := Some(KeyLengths(Data())))
    {
      var lpk := LengthPerKey();
      var batchSizePerSplit := SumBySplits(stridePerKey, keySplits);
      var lengthPerSplit := SumBySplits(lpk, keySplits);
      r := [batchSizePerSplit, lengthPerSplit];
      if variableStridePerKey {
        r := r + [keySplits];
      }
      if weights.Some? {
        r := r + [lengthPerSplit];
      }
    }

    /** `dist_tensors()`: reading the lengths fills in their cache. */
    method DistTensors() returns (r: seq<seq<int>>)
      requires Valid()
      modifies this
      ensures Valid() && Data() == old(Data())
      ensures r == DistTensorsOf(Data())
      ensures Caches() == old(Caches()).(lengths := Some(Data().lengths))
    {
      var l := Lengths();
      r := [l, values];
      if variableStridePerKey {
        r := r + [stridePerKey];
      }
      if weights.Some? {
        r := r + [weights.value];
      }
    }

    /**
     * `flatten_lengths()`: a new KJT over the same buffers and stride
     * arguments, carrying the lengths and the per-key lengths, both of which
     * it first fills in here.
     */
    method FlattenLengths() returns (p: KeyedJaggedTensor)
      requires Valid()
      modifies this
      ensures Valid() && Data() == old(Data())
      ensures Caches() == old(Caches()).(lengths := Some(Data().lengths), lengthPerKey := Some(KeyLengths(Data())))
      ensures fresh(p) && p.Valid() && p.Data() == Data() && p.inverseIndices == None
      ensures p.Caches() == CacheState(Some(Data().lengths), None, Some(KeyLengths(Data())), None, None, None, [])
    {
      var l := Lengths();
      var lpk := LengthPerKey();
      PassOwnStrides(Data());
      var strides := PassStrides(|keys|, variableStridePerKey, stride, stridePerKeyPerRank);
      p := new KeyedJaggedTensor(keys, values, weights, Some(l), None, strides, Some(lpk), None, None, None, None);
    }

    /** The `segment == len(keys)` piece of `split`: this KJT's row arrays and caches, no inverse indices. */
    method SplitAllKeys() returns (p: KeyedJaggedTensor)
      requires Valid()
      ensures fresh(p) && p.Valid() && p.Data() == Data() && p.Data() == SplitContent(Data(), 0, |keys|)
      ensures p.Caches() == Caches().(lengthsOffsetPerKey := []) && p.inverseIndices == None
    {
      var strides := PassStrides(|keys|, variableStridePerKey, stride, stridePerKeyPerRank[0..|keys|]);
      PassOwnStrides(Data());
      assert stridePerKeyPerRank[0..|keys|] == stridePerKeyPerRank;
      SplitWhole(Data());
      p := new KeyedJaggedTensor(keys, values, weights, lengths, offsets, strides,
                                 lengthPerKey, offsetPerKey, indexPerKey, jtDict, None);
      assert p.Data() == Data();
      assert p.DictTensors() == DictTensors();
    }

    /** The `segment == 0` piece of `split`: no keys, empty buffers, empty lengths and offsets. */
    method SplitNoKeys(start: int) returns (p: KeyedJaggedTensor)
      requires Valid() && 0 <= start <= |keys|
      ensures fresh(p) && p.Valid() && p.Data() == SplitContent(Data(), start, start)
      ensures p.Caches() == CacheState(Some([]), Some([]), None, None, None, None, [])
    {
      ghost var c := Data();
      var strides := PassStrides(0, variableStridePerKey, stride, stridePerKeyPerRank[start..start]);
      StridesOfWindow(c, start, start);
      OffsetsAt(c, start, start);
      ghost var vo := ValueOffsets(c)[start];
      ghost var ro := RowOffsets(c)[start];
      assert c.values[vo..vo] == [] && c.lengths[ro..ro] == [] && keys[start..start] == [];
      var w := if weights.Some? then Some([]) else None;
      assert weights.Some? ==> weights.value[vo..vo] == [];
      p := new KeyedJaggedTensor([], [], w, Some([]), Some([]), strides, None, None, None, None, None);
      assert p.StrideFields() == strides;
      assert p.Data() == SplitContent(c, start, start);
    }

    /**
     * The general piece of `split`: the value and weight windows between the
     * keys' value offsets, the row window between their row offsets, and the
     * window of the per-key lengths as its cache.
     */
    method SplitWindow(start: int, end: int, l: seq<int>, lopk: seq<int>) returns (p: KeyedJaggedTensor)
      requires Valid() && 0 <= start <= end <= |keys|
      requires lengthPerKey.Some? && offsetPerKey.Some?
      requires l == Data().lengths && lopk == RowOffsets(Data())
      requires |lopk| == |keys| + 1 && 0 <= lopk[start] <= lopk[end] <= |l| && |lengthPerKey.value| == |keys|
      ensures fresh(p) && p.Valid() && p.Data() == SplitContent(Data(), start, end)
      ensures p.Caches() == CacheState(Some(l[lopk[start]..lopk[end]]), None, Some(lengthPerKey.value[start..end]),
                                       None, None, None, [])
    {
      ghost var c := Data();
      OffsetsAt(c, start, end);
      StridesOfWindow(c, start, end);
      SplitContentWellFormed(c, start, end);
      var opk := offsetPerKey.value;
      var strides := PassStrides(end - start, variableStridePerKey, stride, stridePerKeyPerRank[start..end]);
      var w := if weights.Some? then Some(weights.value[opk[start]..opk[end]]) else None;
      p := new KeyedJaggedTensor(keys[start..end], values[opk[start]..opk[end]], w,
                                 Some(l[lopk[start]..lopk[end]]), None, strides,
                                 Some(lengthPerKey.value[start..end]), None, None, None, None);
      assert p.Data() == SplitContent(c, start, end);
    }

    /** One piece of `split`, keys `start..end`, built by the branch the segment's size selects. */
    method SplitPiece(start: int, end: int, l: seq<int>, lopk: seq<int>) returns (p: KeyedJaggedTensor)
      requires Valid() && 0 <= start <= end <= |keys| && (end - start == |keys| ==> start == 0)
      requires lengthPerKey.Some? && offsetPerKey.Some?
      requires end - start != 0 && end - start != |keys| ==> l == Data().lengths && lopk == RowOffsets(Data())
      ensures fresh(p) && p.Valid() && p.Data() == SplitContent(Data(), start, end)
    {
      if end - start == |keys| {
        p := SplitAllKeys();
      } else if end - start == 0 {
        p := SplitNoKeys(start);
      } else {
        OffsetsAt(Data(), start, end);
        p := SplitWindow(start, end, l, lopk);
      }
    }

    /**
     * Splits the keys into consecutive groups of the given sizes. The
     * per-key caches are filled first, and the row caches when some segment
     * needs a window of rows.
     */
    method Split(segments: seq<int>) returns (r: Result<seq<KeyedJaggedTensor>, Error>)
      requires Valid() && AllNonNeg(segments)
      modifies this
      ensures Valid() && Data() == old(Data())
      ensures Caches().(lengths := old(lengths), lengthsOffsetPerKey := old(lengthsOffsetPerKey))
              == old(Caches()).(lengthPerKey := Some(KeyLengths(Data())), offsetPerKey := Some(ValueOffsets(Data())))
      ensures r.Failure? <==> Sum(segments) > |keys|
      ensures r.Failure? ==> r.error == IndexError
      ensures r.Success? ==> |r.value| == |segments|
      ensures r.Success? ==> forall i :: 0 <= i < |segments| ==>
                fresh(r.value[i]) && r.value[i].Valid() && r.value[i].Data() == SplitAll(Data(), segments)[i]
    {
      var _ := LengthPerKey();
      var opk := OffsetPerKey();
      var l: seq<int> := [];
      var lopk: seq<int> := [];
      if SomeWindow(segments, |keys|) {
        l := Lengths();
        lopk := LengthsOffsetPerKey();
      }
      r := SplitPieces(segments, opk, l, lopk);
    }

    /** The loop of `Split`, once the caches it reads are filled. */
    method SplitPieces(segments: seq<int>, opk: seq<int>, l: seq<int>, lopk: seq<int>)
      returns (r: Result<seq<KeyedJaggedTensor>, Error>)
      requires Valid() && AllNonNeg(segments) && lengthPerKey.Some? && offsetPerKey.Some?
      requires opk == ValueOffsets(Data())
      requires SomeWindow(segments, |keys|) ==> l == Data().lengths && lopk == RowOffsets(Data())
      ensures r.Failure? <==> Sum(segments) > |keys|
      ensures r.Failure? ==> r.error == IndexError
      ensures r.Success? ==> |r.value| == |segments|
      ensures r.Success? ==> forall i :: 0 <= i < |segments| ==>
                fresh(r.value[i]) && r.value[i].Valid() && r.value[i].Data() == SplitAll(Data(), segments)[i]
    {
      ghost var c := Data();
      OffsetsAt(c, 0, 0);
      ghost var bounds := CompleteCumsum(segments);
      CumsumEnds(segments);
      ghost var contents: seq<Content> := [];
      var pieces: seq<KeyedJaggedTensor> := [];
      var start := 0;
      var i := 0;
      assert segments[..0] == [];
      while i < |segments|
        invariant 0 <= i <= |segments| && |pieces| == i
        invariant start == bounds[i] && 0 <= start <= |keys|
        invariant contents == SplitAll(c, segments[..i])
        invariant forall j :: 0 <= j < i ==> fresh(pieces[j])
        invariant Built(pieces, contents)
      {
        var end := start + segments[i];
        CumsumStep(segments, i);
        if end >= |opk| {
          CumsumMonotone(segments, i + 1, |segments|);
          return Failure(IndexError);
        }
        var p := SplitStep(segments, i, start, l, lopk, contents);
        ghost var before := contents;
        contents := contents + [p.Data()];
        ghost var done := pieces;
        pieces := pieces + [p];
        BuiltStep(done, before, p);
        start := end;
        i := i + 1;
      }
      assert segments[..i] == segments;
      BuiltAt(pieces, contents);
      r := Success(pieces);
    }

    /** Round i of the `split` loop: the piece for segment i, which extends the pieces so far. */
    method SplitStep(segments: seq<int>, i: int, start: int, l: seq<int>, lopk: seq<int>, ghost contents: seq<Content>)
      returns (p: KeyedJaggedTensor)
      requires Valid() && AllNonNeg(segments) && 0 <= i < |segments| && lengthPerKey.Some? && offsetPerKey.Some?
      requires start == CompleteCumsum(segments)[i] && CompleteCumsum(segments)[i + 1] <= |keys|
      requires SomeWindow(segments, |keys|) ==> l == Data().lengths && lopk == RowOffsets(Data())
      requires AllNonNeg(segments[..i]) && Sum(segments[..i]) <= |keys| && contents == SplitAll(Data(), segments[..i])
      ensures fresh(p) && p.Valid() && contents + [p.Data()] == SplitAll(Data(), segments[..i + 1])
    {
      ghost var c := Data();
      CumsumStep(segments, i);
      SplitAllStep(c, segments, i);
      if segments[i] != 0 && segments[i] != |keys| {
        WindowNeedsRows(segments, |keys|, i);
      }
      var end := start + segments[i];
      assert end == CompleteCumsum(segments)[i + 1];
      p := SplitPiece(start, end, l, lopk);
    }

    /**
     * The loop of `permute`: the keys, per-rank strides and per-key lengths
     * named by the indices, in their order, and the total length. It stops
     * with `ok` false at the first index past the last key.
     */
    method PermuteKeys(indices: seq<int>, lpk: seq<int>)
      returns (ok: bool, pk: seq<string>, ps: seq<seq<int>>, pl: seq<int>, total: int)
      requires AllNonNeg(indices) && |lpk| == |keys| == |stridePerKeyPerRank|
      ensures ok <==> InRange(indices, |keys|)
      ensures ok ==> pk == Pick(keys, indices) && ps == Pick(stridePerKeyPerRank, indices)
      ensures ok ==> pl == Pick(lpk, indices) && total == Sum(pl)
    {
      pk, ps, pl, total := [], [], [], 0;
      var i := 0;
      while i < |indices|
        invariant 0 <= i <= |indices| && |pk| == |ps| == |pl| == i
        invariant forall j :: 0 <= j < i ==> indices[j] < |keys|
        invariant forall j :: 0 <= j < i ==> pk[j] == keys[indices[j]]
        invariant forall j :: 0 <= j < i ==> ps[j] == stridePerKeyPerRank[indices[j]]
        invariant forall j :: 0 <= j < i ==> pl[j] == lpk[indices[j]]
        invariant total == Sum(pl)
      {
        var index := indices[i];
        if index >= |keys| {
          return false, pk, ps, pl, total;
        }
        pk := pk + [keys[index]];
        ps := ps + [stridePerKeyPerRank[index]];
        pl := pl + [lpk[index]];
        SumStep(pl, i);
        assert pl[..i + 1] == pl && pl[..i] == pl[..|pl| - 1];
        total := total + lpk[index];
        i := i + 1;
      }
      ok := true;
    }

    /**
     * `permute(indices)`: key i of the result is key `indices[i]`, with that
     * key's rows, values and weights. An index past the last key raises
     * IndexError; in uniform mode the lengths are viewed as a `(keys, -1)`
     * matrix, which raises RuntimeError when they are empty. The per-key
     * lengths are passed on when there are keys, the inverse indices only
     * when asked for.
     */
    method Permute(indices: seq<int>, includeInverse: bool) returns (r: Result<KeyedJaggedTensor, Error>)
      requires Valid() && AllNonNeg(indices)
      modifies this
      ensures Valid() && Data() == old(Data())
      ensures !InRange(indices, |keys|) ==> Caches() == old(Caches()).(lengthPerKey := Some(KeyLengths(Data())))
      ensures InRange(indices, |keys|) ==>
                Caches() == old(Caches()).(lengths := Some(Data().lengths), lengthPerKey := Some(KeyLengths(Data())))
      ensures r.Failure? <==> !InRange(indices, |keys|) || (!variableStridePerKey && Data().lengths == [])
      ensures !InRange(indices, |keys|) ==> r == Failure(IndexError)
      ensures r.Failure? && InRange(indices, |keys|) ==> r.error.RuntimeError?
      ensures r.Success? ==> (
        && fresh(r.value) && r.value.Valid()
        && r.value.Data() == PermuteContent(Data(), indices)
        && r.value.Caches() == CacheState(Some(Gather(Data().lengths, stridePerKey, indices)), None,
                                          if |indices| > 0 then Some(Pick(KeyLengths(Data()), indices)) else None,
                                          None, None, None, [])
        && r.value.inverseIndices == (if includeInverse then inverseIndices else None))
    {
      var lpk := LengthPerKey();
      var ok, pk, ps, pl, total := PermuteKeys(indices, lpk);
      if !ok {
        return Failure(IndexError);
      }
      var l := Lengths();
      ghost var c := Data();
      if !variableStridePerKey && l == [] {
        return Failure(RuntimeError("cannot reshape tensor of 0 elements into shape [num_keys, -1]"));
      }
      var p := PermuteBuild(indices, lpk, l, pk, ps, pl, if includeInverse then inverseIndices else None);
      r := Success(p);
    }

    /** The KJT `permute` builds once the keys, strides and lengths are gathered. */
    method PermuteBuild(indices: seq<int>, lpk: seq<int>, l: seq<int>, pk: seq<string>, ps: seq<seq<int>>,
                        pl: seq<int>, inverse: Option<InverseIndices>)
      returns (p: KeyedJaggedTensor)
      requires Valid() && InRange(indices, |keys|)
      requires lpk == KeyLengths(Data()) && l == Data().lengths
      requires pk == Pick(keys, indices) && ps == Pick(stridePerKeyPerRank, indices) && pl == Pick(lpk, indices)
      ensures fresh(p) && p.Valid() && p.Data() == PermuteContent(Data(), indices)
      ensures p.Caches() == CacheState(Some(Gather(l, stridePerKey, indices)), None,
                                       if |indices| > 0 then Some(pl) else None, None, None, None, [])
      ensures p.inverseIndices == inverse
    {
      ghost var c := Data();
      // Both kernels move whole blocks: the variable-stride one the blocks of
      // `stride_per_key` rows, the uniform one the rows of the (keys, stride) view.
      var pLengths := Gather(l, stridePerKey, indices);
      var pValues := Gather(values, lpk, indices);
      var pWeights := if weights.Some? then Some(Gather(weights.value, lpk, indices)) else None;
      var strides := PassStrides(|indices|, variableStridePerKey, stride, ps);
      PermuteWellFormed(c, indices);
      PermuteStrides(c, indices);
      p := new KeyedJaggedTensor(pk, pValues, pWeights, Some(pLengths), None, strides,
                                 if |pk| > 0 then Some(pl) else None, None, None, None, inverse);
      assert p.Data() == PermuteContent(c, indices);
    }

    /**
     * `kjt[key]`: the key's last position selects its window of the values and
     * weights (between its value offsets) and of the lengths (between its row
     * offsets); an unknown key raises KeyError once the per-key offsets and the
     * key map are filled.
     */
    method GetItem(key: string) returns (r: Result<JaggedTensor, Error>)
      requires Valid()
      modifies this
      ensures Valid() && Data() == old(Data())
      ensures key !in keys ==> Caches() == old(Caches()).(lengthPerKey := Some(KeyLengths(Data())),
                                 offsetPerKey := Some(ValueOffsets(Data())), indexPerKey := Some(IndexPerKey(keys)))
      ensures key in keys ==> Caches() == old(Caches()).(lengths := Some(Data().lengths), lengthPerKey := Some(KeyLengths(Data())),
                                offsetPerKey := Some(ValueOffsets(Data())), indexPerKey := Some(IndexPerKey(keys)),
                                lengthsOffsetPerKey := RowOffsets(Data()))
      ensures r.Failure? <==> key !in keys
      ensures r.Failure? ==> r.error == KeyError
      ensures r.Success? ==> (
        && fresh(r.value) && r.value.Valid() && r.value.offsets == None
        && JtOf(r.value) == JtDictContent(Data())[key])
    {
      var opk := OffsetPerKey();
      var ipk := KeyIndices();
      if key !in ipk {
        return Failure(KeyError);
      }
      var l := Lengths();
      var lopk := LengthsOffsetPerKey();
      var jt := KeyTensor(ipk[key], opk, l, lopk);
      r := Success(jt);
    }

    /** The tensor `kjt[key]` builds for the key at position `index`. */
    method KeyTensor(index: int, opk: seq<int>, l: seq<int>, lopk: seq<int>) returns (jt: JaggedTensor)
      requires Valid() && 0 <= index < |keys|
      requires opk == ValueOffsets(Data()) && l == Data().lengths && lopk == RowOffsets(Data())
      ensures fresh(jt) && jt.Valid() && jt.offsets == None && JtOf(jt) == KeyJt(Data(), index)
    {
      ghost var c := Data();
      OffsetsAt(c, index, index + 1);
      KeyJtBlocks(c, index);
      var startOffset := opk[index];
      var endOffset := if index + 1 < |opk| then opk[index + 1] else startOffset;
      var w := if weights.Some? then Some(weights.value[startOffset..endOffset]) else None;
      jt := new JaggedTensor(values[startOffset..endOffset], w, Some(l[lopk[index]..lopk[index + 1]]), None);
    }

    /**
     * The loop of `_maybe_compute_kjt_to_jt_dict`: the values and weights are
     * split by the per-key lengths and the lengths into per-key row blocks, and
     * each key, in order, is bound to a new tensor holding block i with its
     * lengths and offsets.
     */
    method BuildJtDict(l: seq<int>, lpk: seq<int>) returns (d: map<string, JaggedTensor>)
      requires Valid() && l == Data().lengths && lpk == KeyLengths(Data())
      ensures forall key :: key in d <==> key in keys
      ensures forall key :: key in d ==> fresh(d[key]) && d[key].Valid() && JtOf(d[key]) == JtDictContent(Data())[key]
    {
      ghost var c := Data();
      var valuesList := Blocks(values, lpk);
      var weightsList := if weights.Some? then Some(Blocks(weights.value, lpk)) else None;
      assert weightsList == WeightBlocks(c);
      var rows: seq<seq<int>>;
      if variableStridePerKey {
        rows := Blocks(l, stridePerKey);
      } else if l != [] {
        // `unbind(lengths.view(-1, stride))`: one row of `stride` lengths per key.
        UniformReshapes(c);
        rows := UnbindRows(l, stride);
      } else {
        // The code as written unbinds the empty lengths into no rows at all and
        // raises IndexError reading key 0's row; the model takes the corrected
        // behaviour of the second finding, where each key's row block is empty.
        rows := Repeat([], |keys|);
        BlocksOfEmpty<int>(stridePerKey);
      }
      assert rows == Blocks(c.lengths, stridePerKey);
      forall j | 0 <= j < |keys|
        ensures JtValid(Jt(valuesList[j], if weightsList.Some? then Some(weightsList.value[j]) else None, rows[j]))
      {
        KeyJtFromBlocks(c, j);
        KeyJtBlocks(c, j);
      }
      d := BindTensors(keys, valuesList, weightsList, rows);
      JtDictLoopIsContent(c);
    }

    /**
     * `to_dict()`: fills the per-key lengths and the lengths, then returns the
     * cached dict, or `{}` without keys, or a new dict binding each key to its
     * tensor; the result is stored as the cache.
     */
    method ToDict() returns (r: map<string, JaggedTensor>)
      requires Valid()
      modifies this
      ensures Valid() && Data() == old(Data())
      ensures Caches() == old(Caches()).(lengths := Some(Data().lengths), lengthPerKey := Some(KeyLengths(Data())),
                                         jtDict := Some(r))
      ensures forall key :: key in r <==> key in keys
      ensures forall key :: key in r ==> r[key].Valid() && JtOf(r[key]) == JtDictContent(Data())[key]
      ensures old(jtDict).Some? ==> r == old(jtDict).value
      ensures old(jtDict).None? ==> forall key :: key in r ==> fresh(r[key])
    {
      var lpk := LengthPerKey();
      var l := Lengths();
      r := ComputeJtDict(l, lpk);
      StoreJtDict(r);
    }

    /** `self._jt_dict = ...`: stores a dict that binds every key to its tensor. */
    method StoreJtDict(r: map<string, JaggedTensor>)
      requires Valid()
      requires r.Keys == JtDictContent(Data()).Keys
      requires forall key :: key in r ==> Holds(r[key], JtDictContent(Data())[key])
      modifies this
      ensures Valid() && Data() == old(Data()) && Caches() == old(Caches()).(jtDict := Some(r))
    {
      ghost var c := Data();
      jtDict := Some(r);
      assert Data() == c;
    }

    /** `_maybe_compute_kjt_to_jt_dict` on this KJT's lengths and per-key lengths. */
    method ComputeJtDict(l: seq<int>, lpk: seq<int>) returns (r: map<string, JaggedTensor>)
      requires Valid() && l == Data().lengths && lpk == KeyLengths(Data())
      ensures forall key :: key in r <==> key in keys
      ensures forall key :: key in r ==> r[key].Valid() && JtOf(r[key]) == JtDictContent(Data())[key]
      ensures jtDict.Some? ==> r == jtDict.value
      ensures jtDict.None? ==> forall key :: key in r ==> fresh(r[key])
    {
      if jtDict.Some? {
        r := jtDict.value;
      } else if lpk == [] {
        r := map[];
      } else {
        r := BuildJtDict(l, lpk);
      }
    }
  }
}
