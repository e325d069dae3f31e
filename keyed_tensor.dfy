// `KeyedTensor`: dense tensors of different widths laid side by side along
// one axis, the keyed axis, each reachable by its key.
//
// Only the keyed axis is modelled: `values` lists the tensor's slices along
// that axis in order, one `Column` per position, so narrowing, splitting and
// concatenating along the keyed axis become slicing, `Blocks` and `Flatten`.
// The keys, the per-key widths and the values never change after
// construction; the offsets and the key-to-position map are lazy caches.

module KeyedTensors {
  import opened Wrappers
  import opened Prefix
  import opened Segments
  import opened KjtSpec
  import opened KjtOps

  /** The entries of every other axis at one position of the keyed axis. */
  type Column = seq<int>

  /** The data a `KeyedTensor` stands for. */
  datatype KtData = KtData(keys: seq<string>, lengthPerKey: seq<int>, values: seq<Column>)

  /** One non-negative width per key, the widths covering the keyed axis. */
  predicate KtWellFormed(d: KtData)
  {
    |d.lengthPerKey| == |d.keys| && Partitions(d.lengthPerKey, |d.values|)
  }

  predicate Distinct(keys: seq<string>)
  {
    forall i, j :: 0 <= i < j < |keys| ==> keys[i] != keys[j]
  }

  /** The columns of `key`: the block at its position (its last one, for a repeated key). */
  function KeyBlock(d: KtData, key: string): (r: seq<Column>)
    requires KtWellFormed(d) && key in d.keys
    ensures |r| == d.lengthPerKey[IndexPerKey(d.keys)[key]]
  {
    Blocks(d.values, d.lengthPerKey)[IndexPerKey(d.keys)[key]]
  }

  /** `to_dict()`: every key with its block. */
  function KtDict(d: KtData): (r: map<string, seq<Column>>)
    requires KtWellFormed(d)
    ensures forall key :: key in r <==> key in d.keys
  {
    map key | key in d.keys :: KeyBlock(d, key)
  }

  /** `to_dict` reads each key's block of the split values at its cached index. */
  lemma KtDictByIndex(d: KtData, indices: map<string, int>, splitValues: seq<seq<Column>>)
    requires KtWellFormed(d) && indices == IndexPerKey(d.keys) && splitValues == Blocks(d.values, d.lengthPerKey)
    ensures forall key :: key in indices ==> 0 <= indices[key] < |splitValues|
    ensures (map key | key in indices :: splitValues[indices[key]]) == KtDict(d)
  {
  }

  /** `__getitem__` narrows to `[offset_per_key[i], offset_per_key[i] + length_per_key[i])`: the key's block of `to_dict`. */
  lemma NarrowIsBlock(d: KtData, key: string, start: int, length: int)
    requires KtWellFormed(d) && key in d.keys
    requires start == CompleteCumsum(d.lengthPerKey)[IndexPerKey(d.keys)[key]]
    requires length == d.lengthPerKey[IndexPerKey(d.keys)[key]]
    ensures 0 <= start <= start + length <= |d.values| && d.values[start..start + length] == KeyBlock(d, key)
  {
    var index := IndexPerKey(d.keys)[key];
    BlockAt(d.values, d.lengthPerKey, index);
    CumsumStep(d.lengthPerKey, index);
  }

  /** With distinct keys, the blocks of `to_dict` taken in key order rebuild the values. */
  lemma KtDictRoundTrip(d: KtData)
    requires KtWellFormed(d) && Distinct(d.keys)
    ensures Flatten(seq(|d.keys|, i requires 0 <= i < |d.keys| => KtDict(d)[d.keys[i]])) == d.values
  {
    IndexOfDistinctKeys(d.keys);
    var dict := KtDict(d);
    var blocks := seq(|d.keys|, i requires 0 <= i < |d.keys| => dict[d.keys[i]]);
    assert blocks == Blocks(d.values, d.lengthPerKey);
    FlattenOfBlocks(d.values, d.lengthPerKey);
  }

  /** `from_tensor_list` with `cat_dim == key_dim`: each tensor's width, and the tensors side by side. */
  function FromTensorListData(keys: seq<string>, tensors: seq<seq<Column>>): KtData
  {
    KtData(keys, Sizes(tensors), Flatten(tensors))
  }

  /** A keyed tensor built from one tensor per distinct key hands every key its own tensor back. */
  lemma FromTensorListRoundTrip(keys: seq<string>, tensors: seq<seq<Column>>)
    requires |keys| == |tensors| && Distinct(keys)
    ensures KtWellFormed(FromTensorListData(keys, tensors))
    ensures forall i :: 0 <= i < |keys| ==> KtDict(FromTensorListData(keys, tensors))[keys[i]] == tensors[i]
  {
    var d := FromTensorListData(keys, tensors);
    BlocksOfFlatten(tensors);
    IndexOfDistinctKeys(keys);
    forall i | 0 <= i < |keys|
      ensures KtDict(d)[keys[i]] == tensors[i]
    {
      assert keys[i] in keys;
    }
  }

  class KeyedTensor {
    const keys: seq<string>
    const lengthPerKey: seq<int>
    const values: seq<Column>
    const keyDim: int
    var offsetPerKey: Option<seq<int>>
    var indexPerKey: Option<map<string, int>>

    function Data(): KtData
    {
      KtData(keys, lengthPerKey, values)
    }

    /** The widths cover the values, and each cache holds what its accessor would compute. */
    ghost predicate Valid()
      reads this
    {
      && KtWellFormed(Data())
      && (offsetPerKey.Some? ==> offsetPerKey.value == CompleteCumsum(lengthPerKey))
      && (indexPerKey.Some? ==> indexPerKey.value == IndexPerKey(keys))
    }

    constructor (keys: seq<string>, lengthPerKey: seq<int>, values: seq<Column>, keyDim: int,
                 offsetPerKey: Option<seq<int>>, indexPerKey: Option<map<string, int>>)
      ensures this.keys == keys && this.lengthPerKey == lengthPerKey && this.values == values
      ensures this.keyDim == keyDim && this.offsetPerKey == offsetPerKey && this.indexPerKey == indexPerKey
    {
      this.keys := keys;
      this.lengthPerKey := lengthPerKey;
      this.values := values;
      this.keyDim := keyDim;
      this.offsetPerKey := offsetPerKey;
      this.indexPerKey := indexPerKey;
    }

    /** `offset_per_key()`: the running widths, from 0 to the width of the keyed axis, computed once and cached. */
    method OffsetPerKey() returns (r: seq<int>)
      requires Valid()
      modifies this`offsetPerKey
      ensures Valid() && offsetPerKey == Some(r) && r == CompleteCumsum(lengthPerKey)
      ensures |r| == |keys| + 1 && r[0] == 0 && r[|keys|] == |values|
    {
      if offsetPerKey.None? {
        var o := Cumsum(lengthPerKey);
        offsetPerKey := Some(o);
      }
      r := offsetPerKey.value;
      CumsumEnds(lengthPerKey);
    }

    /** `_key_indices()`: each key's position, the last one for a repeated key, computed once and cached. */
    method KeyIndices() returns (r: map<string, int>)
      requires Valid()
      modifies this`indexPerKey
      ensures Valid() && indexPerKey == Some(r) && r == IndexPerKey(keys)
    {
      if indexPerKey.None? {
        indexPerKey := Some(IndexPerKey(keys));
      }
      r := indexPerKey.value;
    }

    /** `__getitem__(key)`: the key's columns, or KeyError for an unknown key (before the offsets are computed). */
    method GetItem(key: string) returns (r: Result<seq<Column>, Error>)
      requires Valid()
      modifies this`offsetPerKey, this`indexPerKey
      ensures Valid() && indexPerKey == Some(IndexPerKey(keys))
      ensures r.Failure? <==> key !in keys
      ensures r.Failure? ==> r.error == KeyError && offsetPerKey == old(offsetPerKey)
      ensures r.Success? ==> r.value == KeyBlock(Data(), key) && offsetPerKey == Some(CompleteCumsum(lengthPerKey))
    {
      var indices := KeyIndices();
      if key !in indices {
        return Failure(KeyError);
      }
      var index := indices[key];
      var offsets := OffsetPerKey();
      var start, length := offsets[index], lengthPerKey[index];
      NarrowIsBlock(Data(), key, start, length);
      r := Success(values[start..start + length]);
    }

    /** `to_dict()`: `values.split(length_per_key)` keyed through `_key_indices()`. */
    method ToDict() returns (r: map<string, seq<Column>>)
      requires Valid()
      modifies this`indexPerKey
      ensures Valid() && indexPerKey == Some(IndexPerKey(keys)) && offsetPerKey == old(offsetPerKey)
      ensures r == KtDict(Data())
    {
      var indices := KeyIndices();
      var splitValues := Blocks(values, lengthPerKey);
      KtDictByIndex(Data(), indices, splitValues);
      r := map key | key in indices :: splitValues[indices[key]];
    }
  }

  /** `from_tensor_list(keys, tensors)` with the tensors joined along the keyed axis; joining no tensors raises. */
  method FromTensorList(keys: seq<string>, tensors: seq<seq<Column>>, keyDim: int) returns (r: Result<KeyedTensor, Error>)
    ensures r.Failure? <==> tensors == []
    ensures r.Failure? ==> r.error == RuntimeError(EmptyCatMessage)
    ensures r.Success? ==> && fresh(r.value) && r.value.Data() == FromTensorListData(keys, tensors)
                           && r.value.keyDim == keyDim && r.value.offsetPerKey == None && r.value.indexPerKey == None
    ensures r.Success? && |keys| == |tensors| ==> r.value.Valid()
  {
    if tensors == [] {
      return Failure(RuntimeError(EmptyCatMessage));
    }
    FlattenSizes(tensors);
    var kt := new KeyedTensor(keys, Sizes(tensors), Flatten(tensors), keyDim, None, None);
    r := Success(kt);
  }

  // ---------------------------------------------------------------------
  // `_regroup_keyed_tensors`, behind `regroup` and `regroup_as_dict`
  // ---------------------------------------------------------------------

  const GroupsKeysMessage: string := "Groups and keys should have same length"

  function Datas(kts: seq<KeyedTensor>): (r: seq<KtData>)
    ensures |r| == |kts| && forall i :: 0 <= i < |kts| ==> r[i] == kts[i].Data()
  {
    seq(|kts|, i requires 0 <= i < |kts| => kts[i].Data())
  }

  predicate AllWellFormed(ds: seq<KtData>)
  {
    forall i :: 0 <= i < |ds| ==> KtWellFormed(ds[i])
  }

  /** Every key, once, across all the keyed tensors. */
  predicate DisjointKeys(ds: seq<KtData>)
  {
    forall i, a, j, b :: 0 <= i < |ds| && 0 <= j < |ds| && 0 <= a < |ds[i].keys| && 0 <= b < |ds[j].keys| && (i != j || a != b)
      ==> ds[i].keys[a] != ds[j].keys[b]
  }

  /** The keys of one keyed tensor, all sent to its position `i`. */
  function OwnedBy(keys: seq<string>, i: int): map<string, int>
  {
    map key | key in keys :: i
  }

  /** `key_to_idx`: for each key, the keyed tensor holding it, the last one when several do. */
  function Owners(ds: seq<KtData>): map<string, int>
  {
    if ds == [] then map[] else Owners(ds[..|ds| - 1]) + OwnedBy(ds[|ds| - 1].keys, |ds| - 1)
  }

  /** Every key of every keyed tensor is in `key_to_idx`. */
  lemma {:induction false} OwnersKnown(ds: seq<KtData>)
    ensures forall i, key :: 0 <= i < |ds| && key in ds[i].keys ==> key in Owners(ds)
  {
    if ds != [] {
      var n := |ds|;
      var front := ds[..n - 1];
      OwnersKnown(front);
      forall i, key | 0 <= i < n && key in ds[i].keys
        ensures key in Owners(ds)
      {
        if i < n - 1 {
          assert front[i] == ds[i];
        }
      }
    }
  }

  /** `key_to_idx` names, for each of its keys, a keyed tensor holding that key. */
  lemma {:induction false} OwnersHold(ds: seq<KtData>)
    ensures forall key :: key in Owners(ds) ==> 0 <= Owners(ds)[key] < |ds| && key in ds[Owners(ds)[key]].keys
  {
    if ds != [] {
      var n := |ds|;
      var front := ds[..n - 1];
      OwnersHold(front);
      forall key | key in Owners(ds)
        ensures 0 <= Owners(ds)[key] < n && key in ds[Owners(ds)[key]].keys
      {
        if key !in ds[n - 1].keys {
          var o := Owners(front)[key];
          assert front[o] == ds[o];
        }
      }
    }
  }

  /** No keyed tensor after the one `key_to_idx` names holds the key: the last one wins. */
  lemma {:induction false} OwnersLast(ds: seq<KtData>)
    ensures forall key, i :: key in Owners(ds) && 0 <= i < |ds| && Owners(ds)[key] < i ==> key !in ds[i].keys
  {
    if ds != [] {
      var n := |ds|;
      var front := ds[..n - 1];
      OwnersLast(front);
      forall key, i | key in Owners(ds) && 0 <= i < n && Owners(ds)[key] < i
        ensures key !in ds[i].keys
      {
        assert key !in ds[n - 1].keys;
        assert Owners(ds)[key] == Owners(front)[key];
        if i < n - 1 {
          assert front[i] == ds[i];
        }
      }
    }
  }

  /** Every name of `names` is a key of some keyed tensor. */
  predicate Known(ds: seq<KtData>, names: seq<string>)
  {
    forall j :: 0 <= j < |names| ==> names[j] in Owners(ds)
  }

  /** The block of `name` in the keyed tensor `key_to_idx` names for it. */
  function OwnerBlock(ds: seq<KtData>, name: string): (r: seq<Column>)
    requires AllWellFormed(ds) && name in Owners(ds)
    ensures 0 <= Owners(ds)[name] < |ds| && name in ds[Owners(ds)[name]].keys
    ensures r == KeyBlock(ds[Owners(ds)[name]], name)
  {
    OwnersHold(ds);
    KeyBlock(ds[Owners(ds)[name]], name)
  }

  /** Each name `key_to_idx` knows, with its block in the keyed tensor it names. */
  function BlockTable(ds: seq<KtData>): (r: map<string, seq<Column>>)
    requires AllWellFormed(ds)
    ensures forall name :: name in r <==> name in Owners(ds)
  {
    map name | name in Owners(ds) :: OwnerBlock(ds, name)
  }

  predicate AllIn<T>(table: map<string, T>, names: seq<string>)
  {
    forall j :: 0 <= j < |names| ==> names[j] in table
  }

  /** The entries of `table` under `names`, in order. */
  function Select<T>(table: map<string, T>, names: seq<string>): (r: seq<T>)
    requires AllIn(table, names)
    ensures |r| == |names|
  {
    seq(|names|, j requires 0 <= j < |names| => table[names[j]])
  }

  /** The blocks a group's names select, each from the keyed tensor `key_to_idx` names for it. */
  function GroupBlocks(ds: seq<KtData>, names: seq<string>): (r: seq<seq<Column>>)
    requires AllWellFormed(ds) && Known(ds, names)
    ensures |r| == |names|
  {
    Select(BlockTable(ds), names)
  }

  /** The shortcut: one group per keyed tensor, listing exactly its keys in order. */
  predicate Shortcut(ds: seq<KtData>, groups: seq<seq<string>>)
  {
    |ds| == |groups| && forall i :: 0 <= i < |ds| ==> ds[i].keys == groups[i]
  }

  /**
   * The general path: `keyed_tensors[0]` raises IndexError when there are
   * none, an unknown name raises KeyError, joining no blocks at all raises;
   * otherwise group g is the blocks of its names, side by side.
   */
  function RegroupGeneral(ds: seq<KtData>, groups: seq<seq<string>>): (r: Result<seq<seq<Column>>, Error>)
    requires AllWellFormed(ds)
    ensures r.Success? ==> |r.value| == |groups|
  {
    if ds == [] then Failure(IndexError)
    else if exists g :: 0 <= g < |groups| && !Known(ds, groups[g]) then Failure(KeyError)
    else if forall g :: 0 <= g < |groups| ==> groups[g] == [] then Failure(RuntimeError(EmptyCatMessage))
    else Success(seq(|groups|, g requires 0 <= g < |groups| => Flatten(GroupBlocks(ds, groups[g]))))
  }

  /** `_regroup_keyed_tensors(keyed_tensors, groups)`: the values themselves under the shortcut, else the general path. */
  function Regrouped(ds: seq<KtData>, groups: seq<seq<string>>): (r: Result<seq<seq<Column>>, Error>)
    requires AllWellFormed(ds)
    ensures r.Success? ==> |r.value| == |groups|
  {
    if Shortcut(ds, groups) then Success(seq(|ds|, i requires 0 <= i < |ds| => ds[i].values))
    else RegroupGeneral(ds, groups)
  }

  /** With disjoint keys, `key_to_idx` sends each key to the keyed tensor holding it. */
  lemma OwnersOfDisjoint(ds: seq<KtData>, i: int, a: int)
    requires DisjointKeys(ds) && 0 <= i < |ds| && 0 <= a < |ds[i].keys|
    ensures ds[i].keys[a] in Owners(ds) && Owners(ds)[ds[i].keys[a]] == i
  {
    var key := ds[i].keys[a];
    OwnersKnown(ds);
    OwnersHold(ds);
    assert key in ds[i].keys;
    var o := Owners(ds)[key];
    var b :| 0 <= b < |ds[o].keys| && ds[o].keys[b] == key;
  }

  /** With disjoint keys, regrouping one keyed tensor's own keys in order gives its values back. */
  lemma DistinctOfDisjoint(ds: seq<KtData>, g: int)
    requires DisjointKeys(ds) && 0 <= g < |ds|
    ensures Distinct(ds[g].keys)
  {
    forall a, b | 0 <= a < b < |ds[g].keys|
      ensures ds[g].keys[a] != ds[g].keys[b]
    {
    }
  }

  /** With distinct keys, key a's block is block a. */
  lemma KeyBlocksOfDistinct(d: KtData)
    requires KtWellFormed(d) && Distinct(d.keys)
    ensures forall a :: 0 <= a < |d.keys| ==> KeyBlock(d, d.keys[a]) == Blocks(d.values, d.lengthPerKey)[a]
  {
    IndexOfDistinctKeys(d.keys);
  }

  /** With disjoint keys, each key of keyed tensor g is looked up in keyed tensor g. */
  lemma TableOfDisjoint(ds: seq<KtData>, g: int)
    requires AllWellFormed(ds) && DisjointKeys(ds) && 0 <= g < |ds|
    ensures Known(ds, ds[g].keys) && AllIn(BlockTable(ds), ds[g].keys)
    ensures forall a :: 0 <= a < |ds[g].keys| ==> BlockTable(ds)[ds[g].keys[a]] == KeyBlock(ds[g], ds[g].keys[a])
  {
    forall a | 0 <= a < |ds[g].keys|
      ensures ds[g].keys[a] in Owners(ds) && Owners(ds)[ds[g].keys[a]] == g
    {
      OwnersOfDisjoint(ds, g, a);
    }
  }

  lemma OwnGroup(ds: seq<KtData>, g: int)
    requires AllWellFormed(ds) && DisjointKeys(ds) && 0 <= g < |ds|
    ensures Known(ds, ds[g].keys) && Flatten(GroupBlocks(ds, ds[g].keys)) == ds[g].values
  {
    var d := ds[g];
    var table := BlockTable(ds);
    var split := Blocks(d.values, d.lengthPerKey);
    TableOfDisjoint(ds, g);
    DistinctOfDisjoint(ds, g);
    KeyBlocksOfDistinct(d);
    SelectAll(table, d.keys, split);
    assert GroupBlocks(ds, d.keys) == split;
    FlattenOfBlocks(d.values, d.lengthPerKey);
  }

  /**
   * The shortcut is only a shortcut: when every key occurs once and some
   * keyed tensor has a key, the general path gives each keyed tensor's
   * values back too.
   */
  lemma ShortcutAgrees(ds: seq<KtData>, groups: seq<seq<string>>)
    requires AllWellFormed(ds) && DisjointKeys(ds) && Shortcut(ds, groups)
    requires exists i :: 0 <= i < |ds| && ds[i].keys != []
    ensures RegroupGeneral(ds, groups) == Success(seq(|ds|, i requires 0 <= i < |ds| => ds[i].values))
  {
    var values := seq(|ds|, k requires 0 <= k < |ds| => ds[k].values);
    OwnGroups(ds, groups, values);
    JoinedAll(BlockTable(ds), groups, values);
    var i :| 0 <= i < |ds| && ds[i].keys != [];
    assert groups[i] == ds[i].keys;
    GeneralOfKnown(ds, groups, i);
  }

  /** Under the shortcut every group is known and joins back into its own tensor's values. */
  lemma OwnGroups(ds: seq<KtData>, groups: seq<seq<string>>, values: seq<seq<Column>>)
    requires AllWellFormed(ds) && DisjointKeys(ds) && Shortcut(ds, groups)
    requires |values| == |ds| && forall k :: 0 <= k < |ds| ==> values[k] == ds[k].values
    ensures AllGroupsIn(BlockTable(ds), groups, |groups|)
    ensures forall g :: 0 <= g < |groups| ==> Flatten(Select(BlockTable(ds), groups[g])) == values[g]
  {
    var table := BlockTable(ds);
    forall g | 0 <= g < |groups|
      ensures AllIn(table, groups[g]) && Flatten(Select(table, groups[g])) == values[g]
    {
      assert groups[g] == ds[g].keys;
      OwnGroup(ds, g);
    }
  }

  /** `{keys[i]: values[i]}` filled in order, so a repeated key keeps its last value. */
  function DictOf<V>(keys: seq<string>, vals: seq<V>): map<string, V>
    requires |keys| == |vals|
  {
    if keys == [] then map[]
    else
      var n := |keys|;
      DictOf(keys[..n - 1], vals[..n - 1])[keys[n - 1] := vals[n - 1]]
  }

  /** The dictionary's keys are the listed keys. */
  lemma {:induction false} DictOfKeys<V>(keys: seq<string>, vals: seq<V>)
    requires |keys| == |vals|
    ensures forall key :: key in DictOf(keys, vals) <==> key in keys
  {
    if keys != [] {
      var n := |keys|;
      DictOfKeys(keys[..n - 1], vals[..n - 1]);
      assert keys == keys[..n - 1] + [keys[n - 1]];
    }
  }

  /** Each key of the dictionary maps to the value at the key's last position. */
  lemma {:induction false} DictOfAt<V>(keys: seq<string>, vals: seq<V>)
    requires |keys| == |vals|
    ensures forall key :: key in DictOf(keys, vals) <==> key in keys
    ensures forall key :: key in keys ==> DictOf(keys, vals)[key] == vals[IndexPerKey(keys)[key]]
  {
    DictOfKeys(keys, vals);
    if keys != [] {
      var n := |keys|;
      var ks, vs := keys[..n - 1], vals[..n - 1];
      DictOfAt(ks, vs);
      var d, d0 := DictOf(keys, vals), DictOf(ks, vs);
      var ipk, ipk0 := IndexPerKey(keys), IndexPerKey(ks);
      assert keys == ks + [keys[n - 1]];
      forall key | key in keys
        ensures d[key] == vals[ipk[key]]
      {
        if key != keys[n - 1] {
          assert key in ks;
          assert ipk[key] == ipk0[key] && d[key] == d0[key] && vs[ipk0[key]] == vals[ipk0[key]];
        }
      }
    }
  }

  /** `regroup_as_dict`: the group count must match the key count; then key i names group i. */
  function RegroupedAsDict(ds: seq<KtData>, groups: seq<seq<string>>, keys: seq<string>): Result<map<string, seq<Column>>, Error>
    requires AllWellFormed(ds)
  {
    if |groups| != |keys| then Failure(AssertionError(GroupsKeysMessage))
    else
      match Regrouped(ds, groups)
      case Failure(e) => Failure(e)
      case Success(list) => Success(DictOf(keys, list))
  }

  /** With distinct keys, key i of `regroup_as_dict` holds group i of `regroup`. */
  lemma RegroupedAsDictAt(ds: seq<KtData>, groups: seq<seq<string>>, keys: seq<string>)
    requires AllWellFormed(ds) && |groups| == |keys| && Distinct(keys) && Regrouped(ds, groups).Success?
    ensures RegroupedAsDict(ds, groups, keys).Success?
    ensures forall key :: key in RegroupedAsDict(ds, groups, keys).value <==> key in keys
    ensures forall i :: 0 <= i < |keys| ==> RegroupedAsDict(ds, groups, keys).value[keys[i]] == Regrouped(ds, groups).value[i]
  {
    var list := Regrouped(ds, groups).value;
    DictOfAt(keys, list);
    IndexOfDistinctKeys(keys);
    forall i | 0 <= i < |keys|
      ensures DictOf(keys, list)[keys[i]] == list[i]
    {
      assert keys[i] in keys;
    }
  }

  /** The shortcut test of `_regroup_keyed_tensors`: equal counts, and each keyed tensor's keys equal to its group. */
  method Matches(kts: seq<KeyedTensor>, groups: seq<seq<string>>) returns (m: bool)
    ensures m <==> Shortcut(Datas(kts), groups)
  {
    if |kts| != |groups| {
      return false;
    }
    var i := 0;
    while i < |kts|
      invariant 0 <= i <= |kts|
      invariant forall j :: 0 <= j < i ==> kts[j].keys == groups[j]
    {
      if kts[i].keys != groups[i] {
        return false;
      }
      i := i + 1;
    }
    return true;
  }

  lemma OwnedByStep(m: map<string, int>, keys: seq<string>, j: int, i: int)
    requires 0 <= j < |keys|
    ensures (m + OwnedBy(keys[..j], i))[keys[j] := i] == m + OwnedBy(keys[..j + 1], i)
  {
    assert keys[..j + 1] == keys[..j] + [keys[j]];
  }

  lemma OwnersStep(ds: seq<KtData>, i: int)
    requires 0 <= i < |ds|
    ensures Owners(ds[..i + 1]) == Owners(ds[..i]) + OwnedBy(ds[i].keys, i)
  {
    assert ds[..i + 1][..i] == ds[..i];
  }

  /** The inner `key_to_idx` loop: every key of one keyed tensor is sent to its position `i`. */
  method Claim(m0: map<string, int>, keys: seq<string>, i: int) returns (m: map<string, int>)
    ensures m == m0 + OwnedBy(keys, i)
  {
    m := m0;
    assert m0 + OwnedBy(keys[..0], i) == m0;
    for j := 0 to |keys|
      invariant m == m0 + OwnedBy(keys[..j], i)
    {
      OwnedByStep(m0, keys, j, i);
      m := m[keys[j] := i];
    }
    assert keys[..|keys|] == keys;
  }

  /** The `key_to_idx` loop: every key of keyed tensor i is sent to i, later keyed tensors overwriting earlier ones. */
  method KeyOwners(kts: seq<KeyedTensor>) returns (m: map<string, int>)
    ensures m == Owners(Datas(kts))
  {
    ghost var ds := Datas(kts);
    m := map[];
    for i := 0 to |kts|
      invariant m == Owners(ds[..i])
    {
      OwnersStep(ds, i);
      m := Claim(m, kts[i].keys, i);
    }
    assert ds[..|kts|] == ds;
  }

  /** Valid keyed tensors carry well-formed contents. */
  lemma WellFormedOfValid(kts: seq<KeyedTensor>)
    requires forall i :: 0 <= i < |kts| ==> kts[i].Valid()
    ensures AllWellFormed(Datas(kts))
  {
  }

  /** A valid keyed tensor, with its key-index cache filled once `filled` holds. */
  ghost predicate Ready(kt: KeyedTensor, filled: bool)
    reads kt
  {
    kt.Valid() && (filled ==> kt.indexPerKey == Some(IndexPerKey(kt.keys)))
  }

  /** The dictionaries of the first `n` keyed tensors. */
  ghost function KtDicts(ds: seq<KtData>, n: int): (r: seq<map<string, seq<Column>>>)
    requires AllWellFormed(ds) && 0 <= n <= |ds|
    ensures |r| == n && forall i :: 0 <= i < n ==> r[i] == KtDict(ds[i])
  {
    seq(n, i requires 0 <= i < n => KtDict(ds[i]))
  }

  lemma KtDictsStep(ds: seq<KtData>, n: int)
    requires AllWellFormed(ds) && 0 <= n < |ds|
    ensures KtDicts(ds, n + 1) == KtDicts(ds, n) + [KtDict(ds[n])]
  {
  }

  /** `embedding_dicts`: `to_dict()` of each keyed tensor, which fills its key-index cache. */
  method ToDicts(kts: seq<KeyedTensor>) returns (dicts: seq<map<string, seq<Column>>>)
    requires forall i :: 0 <= i < |kts| ==> kts[i].Valid()
    requires AllWellFormed(Datas(kts))
    modifies (set i | 0 <= i < |kts| :: kts[i])`indexPerKey
    ensures forall i :: 0 <= i < |kts| ==> Ready(kts[i], true)
    ensures dicts == KtDicts(Datas(kts), |kts|)
  {
    ghost var ds := Datas(kts);
    dicts := [];
    for i := 0 to |kts|
      invariant forall j :: 0 <= j < |kts| ==> Ready(kts[j], j < i)
      invariant dicts == KtDicts(ds, i)
    {
      var d := kts[i].ToDict();
      KtDictsStep(ds, i);
      dicts := dicts + [d];
    }
  }

  /** `indices`: `_key_indices()` of each keyed tensor, whose caches `to_dict()` has already filled. */
  method KeyIndicesOf(kts: seq<KeyedTensor>) returns (indices: seq<map<string, int>>)
    requires forall i :: 0 <= i < |kts| ==> Ready(kts[i], true)
    ensures |indices| == |kts| && forall i :: 0 <= i < |kts| ==> indices[i] == IndexPerKey(kts[i].keys)
  {
    indices := [];
    for i := 0 to |kts|
      invariant |indices| == i
      invariant forall j :: 0 <= j < i ==> indices[j] == IndexPerKey(kts[j].keys)
    {
      var x := kts[i].indexPerKey.value;
      indices := indices + [x];
    }
  }

  /** What `embedding_dicts`, `lengths`, `indices` and `key_to_idx` hold for the keyed tensors `ds`. */
  ghost predicate Lookups(ds: seq<KtData>, dicts: seq<map<string, seq<Column>>>, lengths: seq<seq<int>>,
                          indices: seq<map<string, int>>, owners: map<string, int>)
  {
    && AllWellFormed(ds) && dicts == KtDicts(ds, |ds|) && lengths == LengthsOf(ds) && indices == IndicesOf(ds)
    && owners == Owners(ds)
  }

  ghost function LengthsOf(ds: seq<KtData>): (r: seq<seq<int>>)
    ensures |r| == |ds| && forall i :: 0 <= i < |ds| ==> r[i] == ds[i].lengthPerKey
  {
    seq(|ds|, i requires 0 <= i < |ds| => ds[i].lengthPerKey)
  }

  ghost function IndicesOf(ds: seq<KtData>): (r: seq<map<string, int>>)
    ensures |r| == |ds| && forall i :: 0 <= i < |ds| ==> r[i] == IndexPerKey(ds[i].keys)
  {
    seq(|ds|, i requires 0 <= i < |ds| => IndexPerKey(ds[i].keys))
  }

  /** The three lookups of a known name agree: its block, and its width. */
  lemma NameBlock(ds: seq<KtData>, dicts: seq<map<string, seq<Column>>>, lengths: seq<seq<int>>,
                  indices: seq<map<string, int>>, owners: map<string, int>, name: string, idx: int)
    requires Lookups(ds, dicts, lengths, indices, owners) && name in owners && idx == owners[name]
    ensures 0 <= idx < |ds| && name in ds[idx].keys
    ensures name in dicts[idx] && dicts[idx][name] == KeyBlock(ds[idx], name)
    ensures name in indices[idx] && 0 <= indices[idx][name] < |lengths[idx]|
    ensures lengths[idx][indices[idx][name]] == |KeyBlock(ds[idx], name)|
  {
    OwnersHold(ds);
  }

  lemma SelectStep<T>(table: map<string, T>, names: seq<string>, j: int)
    requires 0 <= j < |names| && AllIn(table, names[..j]) && names[j] in table
    ensures AllIn(table, names[..j + 1])
    ensures Select(table, names[..j + 1]) == Select(table, names[..j]) + [table[names[j]]]
  {
    assert names[..j + 1] == names[..j] + [names[j]];
  }

  lemma SelectAll<T>(table: map<string, T>, names: seq<string>, vals: seq<T>)
    requires AllIn(table, names) && |vals| == |names|
    requires forall a :: 0 <= a < |names| ==> table[names[a]] == vals[a]
    ensures Select(table, names) == vals
  {
  }

  lemma FlattenPush<T>(pieces: seq<seq<T>>, x: seq<T>)
    ensures Flatten(pieces + [x]) == Flatten(pieces) + x
  {
    FlattenConcat(pieces, [x]);
    FlattenOne(x);
  }

  /**
   * The lookups the name loop makes agree with `table`: a name is in
   * `key_to_idx` exactly when it is in `table`, and then its entry of
   * `embedding_dicts` is its table entry and its width comes from
   * `lengths` and `indices`.
   */
  ghost predicate Consistent<T>(table: map<string, seq<T>>, dicts: seq<map<string, seq<T>>>, lengths: seq<seq<int>>,
                                indices: seq<map<string, int>>, owners: map<string, int>)
  {
    && |dicts| == |lengths| == |indices|
    && (forall name :: name in owners <==> name in table)
    && forall name :: name in owners ==>
         && 0 <= owners[name] < |dicts|
         && name in dicts[owners[name]] && dicts[owners[name]][name] == table[name]
         && name in indices[owners[name]] && 0 <= indices[owners[name]][name] < |lengths[owners[name]]|
         && lengths[owners[name]][indices[owners[name]][name]] == |table[name]|
  }

  /** `key_to_idx`, `embedding_dicts`, `lengths` and `indices` agree with the block table. */
  lemma LookupsConsistent(ds: seq<KtData>, dicts: seq<map<string, seq<Column>>>, lengths: seq<seq<int>>,
                          indices: seq<map<string, int>>, owners: map<string, int>)
    requires Lookups(ds, dicts, lengths, indices, owners)
    ensures Consistent(BlockTable(ds), dicts, lengths, indices, owners)
  {
    forall name | name in owners
      ensures && 0 <= owners[name] < |dicts|
              && name in dicts[owners[name]] && dicts[owners[name]][name] == BlockTable(ds)[name]
              && name in indices[owners[name]] && 0 <= indices[owners[name]][name] < |lengths[owners[name]]|
              && lengths[owners[name]][indices[owners[name]][name]] == |BlockTable(ds)[name]|
    {
      NameBlock(ds, dicts, lengths, indices, owners, name, owners[name]);
    }
  }

  /** What the name loop holds after `j` names of a group: their blocks and total width. */
  ghost predicate Selected<T>(table: map<string, seq<T>>, group: seq<string>, j: int, blocks: seq<seq<T>>, groupLength: int)
  {
    0 <= j <= |group| && AllIn(table, group[..j]) && blocks == Select(table, group[..j]) && groupLength == |Flatten(blocks)|
  }

  /** One name of the loop: `embedding_dicts[key_to_idx[name]][name]` and its width from `lengths` and `indices`. */
  lemma SelectedStep<T>(table: map<string, seq<T>>, dicts: seq<map<string, seq<T>>>, lengths: seq<seq<int>>,
                        indices: seq<map<string, int>>, owners: map<string, int>, group: seq<string>, j: int,
                        blocks: seq<seq<T>>, groupLength: int)
    requires Consistent(table, dicts, lengths, indices, owners) && Selected(table, group, j, blocks, groupLength)
    requires j < |group| && group[j] in owners
    ensures Selected(table, group, j + 1, blocks + [table[group[j]]], groupLength + |table[group[j]]|)
  {
    SelectStep(table, group, j);
    FlattenPush(blocks, table[group[j]]);
  }

  lemma SelectedAll<T>(table: map<string, seq<T>>, group: seq<string>, blocks: seq<seq<T>>, groupLength: int)
    requires Selected(table, group, |group|, blocks, groupLength)
    ensures AllIn(table, group) && blocks == Select(table, group)
  {
    assert group[..|group|] == group;
  }

  /** One group of the loop: the blocks its names select and their total width, or a missing name. */
  method CatGroup<T>(ghost table: map<string, seq<T>>, dicts: seq<map<string, seq<T>>>, lengths: seq<seq<int>>,
                     indices: seq<map<string, int>>, owners: map<string, int>, group: seq<string>)
    returns (found: bool, blocks: seq<seq<T>>, groupLength: int)
    requires Consistent(table, dicts, lengths, indices, owners)
    ensures found <==> AllIn(table, group)
    ensures found ==> blocks == Select(table, group) && groupLength == |Flatten(blocks)|
  {
    blocks, groupLength := [], 0;
    var j := 0;
    while j < |group| && group[j] in owners
      invariant Selected(table, group, j, blocks, groupLength)
      decreases |group| - j
    {
      var name := group[j];
      var idx := owners[name];
      SelectedStep(table, dicts, lengths, indices, owners, group, j, blocks, groupLength);
      blocks := blocks + [dicts[idx][name]];
      groupLength := groupLength + lengths[idx][indices[idx][name]];
      j := j + 1;
    }
    if j < |group| {
      assert group[j] !in table;
      return false, blocks, groupLength;
    }
    SelectedAll(table, group, blocks, groupLength);
    found := true;
  }

  predicate AllGroupsIn<T>(table: map<string, T>, groups: seq<seq<string>>, n: int)
  {
    0 <= n <= |groups| && forall k :: 0 <= k < n ==> AllIn(table, groups[k])
  }

  /** The selections of the first `n` groups. */
  ghost function Pieces<T>(table: map<string, seq<T>>, groups: seq<seq<string>>, n: int): (r: seq<seq<seq<T>>>)
    requires AllGroupsIn(table, groups, n)
    ensures |r| == n
  {
    seq(n, k requires 0 <= k < n => Select(table, groups[k]))
  }

  /** The selections of the first `n` groups, each joined. */
  ghost function Joined<T>(table: map<string, seq<T>>, groups: seq<seq<string>>, n: int): (r: seq<seq<T>>)
    requires AllGroupsIn(table, groups, n)
    ensures |r| == n
  {
    seq(n, k requires 0 <= k < n => Flatten(Select(table, groups[k])))
  }

  lemma PiecesStep<T>(table: map<string, seq<T>>, groups: seq<seq<string>>, n: int)
    requires 0 <= n < |groups| && AllGroupsIn(table, groups, n) && AllIn(table, groups[n])
    ensures AllGroupsIn(table, groups, n + 1)
    ensures Pieces(table, groups, n + 1) == Pieces(table, groups, n) + [Select(table, groups[n])]
    ensures Sizes(Joined(table, groups, n + 1)) == Sizes(Joined(table, groups, n)) + [|Flatten(Select(table, groups[n]))|]
  {
    assert Joined(table, groups, n + 1) == Joined(table, groups, n) + [Flatten(Select(table, groups[n]))];
  }

  /** `torch.cat(cat_input)` split by `split_lengths` gives back each group's joined selection. */
  lemma CatThenSplit<T>(table: map<string, seq<T>>, groups: seq<seq<string>>)
    requires AllGroupsIn(table, groups, |groups|)
    ensures Partitions(Sizes(Joined(table, groups, |groups|)), |Flatten(Flatten(Pieces(table, groups, |groups|)))|)
    ensures Blocks(Flatten(Flatten(Pieces(table, groups, |groups|))), Sizes(Joined(table, groups, |groups|)))
            == Joined(table, groups, |groups|)
  {
    var pieces := Pieces(table, groups, |groups|);
    var joined := Joined(table, groups, |groups|);
    FlattenFlatten(pieces);
    assert joined == seq(|pieces|, k requires 0 <= k < |pieces| => Flatten(pieces[k]));
    BlocksOfFlatten(joined);
  }

  lemma JoinedAll<T>(table: map<string, seq<T>>, groups: seq<seq<string>>, joined: seq<seq<T>>)
    requires AllGroupsIn(table, groups, |groups|) && |joined| == |groups|
    requires forall g :: 0 <= g < |groups| ==> Flatten(Select(table, groups[g])) == joined[g]
    ensures Joined(table, groups, |groups|) == joined
  {
  }

  /** Once every group is known and one has a name, the general path gives the joined selections. */
  lemma GeneralOfKnown(ds: seq<KtData>, groups: seq<seq<string>>, g0: int)
    requires AllWellFormed(ds) && ds != [] && AllGroupsIn(BlockTable(ds), groups, |groups|)
    requires 0 <= g0 < |groups| && groups[g0] != []
    ensures RegroupGeneral(ds, groups) == Success(Joined(BlockTable(ds), groups, |groups|))
  {
    forall g | 0 <= g < |groups|
      ensures Known(ds, groups[g])
    {
      assert AllIn(BlockTable(ds), groups[g]);
    }
    assert Joined(BlockTable(ds), groups, |groups|)
        == seq(|groups|, g requires 0 <= g < |groups| => Flatten(GroupBlocks(ds, groups[g])));
  }

  /** Once every group is known and none has a name, the general path has no blocks to join. */
  lemma GeneralOfEmpty(ds: seq<KtData>, groups: seq<seq<string>>)
    requires AllWellFormed(ds) && ds != [] && AllGroupsIn(BlockTable(ds), groups, |groups|)
    requires forall g :: 0 <= g < |groups| ==> groups[g] == []
    ensures RegroupGeneral(ds, groups) == Failure(RuntimeError(EmptyCatMessage))
  {
    forall g | 0 <= g < |groups|
      ensures Known(ds, groups[g])
    {
      assert AllIn(BlockTable(ds), groups[g]);
    }
  }

  /** What the group loop holds after `n` groups: the blocks gathered so far and the group totals. */
  ghost predicate Gathered<T>(table: map<string, seq<T>>, groups: seq<seq<string>>, n: int,
                              catInput: seq<seq<T>>, splitLengths: seq<int>)
  {
    && AllGroupsIn(table, groups, n)
    && catInput == Flatten(Pieces(table, groups, n))
    && splitLengths == Sizes(Joined(table, groups, n))
    && (catInput == [] <==> forall k :: 0 <= k < n ==> groups[k] == [])
  }

  lemma GatheredStep<T>(table: map<string, seq<T>>, groups: seq<seq<string>>, n: int,
                        catInput: seq<seq<T>>, splitLengths: seq<int>, blocks: seq<seq<T>>, groupLength: int)
    requires Gathered(table, groups, n, catInput, splitLengths) && n < |groups|
    requires AllIn(table, groups[n]) && blocks == Select(table, groups[n]) && groupLength == |Flatten(blocks)|
    ensures Gathered(table, groups, n + 1, catInput + blocks, splitLengths + [groupLength])
  {
    PiecesStep(table, groups, n);
    FlattenPush(Pieces(table, groups, n), blocks);
  }

  /** After the last group: no blocks at all is the RuntimeError of `torch.cat`, else the split gives the general path. */
  lemma GatheredAll(ds: seq<KtData>, groups: seq<seq<string>>, catInput: seq<seq<Column>>, splitLengths: seq<int>)
    requires AllWellFormed(ds) && ds != [] && Gathered(BlockTable(ds), groups, |groups|, catInput, splitLengths)
    ensures catInput == [] ==> RegroupGeneral(ds, groups) == Failure(RuntimeError(EmptyCatMessage))
    ensures catInput != [] ==> && Partitions(splitLengths, |Flatten(catInput)|)
                               && RegroupGeneral(ds, groups) == Success(Blocks(Flatten(catInput), splitLengths))
  {
    if catInput == [] {
      GeneralOfEmpty(ds, groups);
    } else {
      var g0 :| 0 <= g0 < |groups| && groups[g0] != [];
      GeneralOfKnown(ds, groups, g0);
      CatThenSplit(BlockTable(ds), groups);
    }
  }

  /** A group naming a key no keyed tensor has is the KeyError of the `key_to_idx` lookup. */
  lemma UnknownGroup(ds: seq<KtData>, groups: seq<seq<string>>, g: int)
    requires AllWellFormed(ds) && ds != [] && 0 <= g < |groups| && !AllIn(BlockTable(ds), groups[g])
    ensures RegroupGeneral(ds, groups) == Failure(KeyError)
  {
    assert !Known(ds, groups[g]);
  }

  /**
   * The group loop of `_regroup_keyed_tensors`: each name's block goes to
   * `cat_input` and its width to the group's total; `cat_input` is then
   * joined and split by the group totals.
   */
  method CatGroups(ds: seq<KtData>, dicts: seq<map<string, seq<Column>>>, lengths: seq<seq<int>>,
                   indices: seq<map<string, int>>, owners: map<string, int>, groups: seq<seq<string>>)
    returns (r: Result<seq<seq<Column>>, Error>)
    requires Lookups(ds, dicts, lengths, indices, owners) && ds != []
    ensures r == RegroupGeneral(ds, groups)
  {
    ghost var table := BlockTable(ds);
    LookupsConsistent(ds, dicts, lengths, indices, owners);
    var splitLengths: seq<int> := [];
    var catInput: seq<seq<Column>> := [];
    for g := 0 to |groups|
      invariant Gathered(table, groups, g, catInput, splitLengths)
    {
      var found, blocks, groupLength := CatGroup(table, dicts, lengths, indices, owners, groups[g]);
      if !found {
        UnknownGroup(ds, groups, g);
        return Failure(KeyError);
      }
      GatheredStep(table, groups, g, catInput, splitLengths, blocks, groupLength);
      catInput := catInput + blocks;
      splitLengths := splitLengths + [groupLength];
    }
    GatheredAll(ds, groups, catInput, splitLengths);
    if catInput == [] {
      return Failure(RuntimeError(EmptyCatMessage));
    }
    var rearranged := Flatten(catInput);
    r := Success(Blocks(rearranged, splitLengths));
  }

  /** `KeyedTensor.regroup(keyed_tensors, groups)`; the general path fills each keyed tensor's key-index cache. */
  method Regroup(kts: seq<KeyedTensor>, groups: seq<seq<string>>) returns (r: Result<seq<seq<Column>>, Error>)
    requires forall i :: 0 <= i < |kts| ==> kts[i].Valid()
    modifies (set i | 0 <= i < |kts| :: kts[i])`indexPerKey
    ensures forall i :: 0 <= i < |kts| ==> kts[i].Valid()
    ensures AllWellFormed(Datas(kts))
    ensures Shortcut(Datas(kts), groups) ==> forall i :: 0 <= i < |kts| ==> kts[i].indexPerKey == old(kts[i].indexPerKey)
    ensures !Shortcut(Datas(kts), groups) ==> forall i :: 0 <= i < |kts| ==> kts[i].indexPerKey == Some(IndexPerKey(kts[i].keys))
    ensures r == Regrouped(Datas(kts), groups)
  {
    WellFormedOfValid(kts);
    var ds := Datas(kts);
    var matched := Matches(kts, groups);
    if matched {
      var tensors := seq(|kts|, i requires 0 <= i < |kts| => kts[i].values);
      assert tensors == seq(|ds|, i requires 0 <= i < |ds| => ds[i].values);
      return Success(tensors);
    }
    var dicts := ToDicts(kts);
    var lengths := seq(|kts|, i requires 0 <= i < |kts| => kts[i].lengthPerKey);
    var indices := KeyIndicesOf(kts);
    if |kts| == 0 {
      return Failure(IndexError);
    }
    var owners := KeyOwners(kts);
    assert lengths == LengthsOf(ds) && indices == IndicesOf(ds);
    r := CatGroups(ds, dicts, lengths, indices, owners, groups);
  }

  /** `KeyedTensor.regroup_as_dict(keyed_tensors, groups, keys)`: the regrouped tensors under the given keys. */
  method RegroupAsDict(kts: seq<KeyedTensor>, groups: seq<seq<string>>, keys: seq<string>)
    returns (r: Result<map<string, seq<Column>>, Error>)
    requires forall i :: 0 <= i < |kts| ==> kts[i].Valid()
    modifies (set i | 0 <= i < |kts| :: kts[i])`indexPerKey
    ensures forall i :: 0 <= i < |kts| ==> kts[i].Valid()
    ensures AllWellFormed(Datas(kts))
    ensures |groups| != |keys| || Shortcut(Datas(kts), groups) ==>
              forall i :: 0 <= i < |kts| ==> kts[i].indexPerKey == old(kts[i].indexPerKey)
    ensures |groups| == |keys| && !Shortcut(Datas(kts), groups) ==>
              forall i :: 0 <= i < |kts| ==> kts[i].indexPerKey == Some(IndexPerKey(kts[i].keys))
    ensures r == RegroupedAsDict(Datas(kts), groups, keys)
  {
    WellFormedOfValid(kts);
    if |groups| != |keys| {
      return Failure(AssertionError(GroupsKeysMessage));
    }
    var list := Regroup(kts, groups);
    if list.Failure? {
      return Failure(list.error);
    }
    var embeddings := list.value;
    var dict: map<string, seq<Column>> := map[];
    for i := 0 to |keys|
      invariant dict == DictOf(keys[..i], embeddings[..i])
    {
      assert keys[..i + 1][..i] == keys[..i] && embeddings[..i + 1][..i] == embeddings[..i];
      dict := dict[keys[i] := embeddings[i]];
    }
    assert keys[..|keys|] == keys && embeddings[..|embeddings|] == embeddings;
    r := Success(dict);
  }
}
