/**
 * Mask application (`fixcon`): every true mask position fixes that element
 * of its parameter by writing NaN into both of its bounds, in place.
 */
module Masking {
  import opened ExtReal
  import opened Outcomes
  import opened Dicts
  import opened NdArrays
  import opened Resolution

  /** A boolean mask array: its shape and its row-major flat bits. */
  datatype MaskArray = MaskArray(shape: seq<nat>, bits: seq<bool>)

  /** What the caller must supply: every mask key is a free key (a missing
      one is a KeyError) and every mask is well formed. */
  predicate MaskOk(b: Bounds, mask: Dict<MaskArray>)
  {
    && mask.Valid()
    && forall k :: k in mask.at ==> k in b.at && |mask.at[k].bits| == Product(mask.at[k].shape)
  }

  /** Flat data with NaN written at every true bit. */
  function MaskSeq(s: seq<Ext>, bits: seq<bool>): (r: seq<Ext>)
    ensures |r| == |s|
    ensures forall i :: 0 <= i < |s| ==> (r[i].NaN? <==> s[i].NaN? || (i < |bits| && bits[i]))
    ensures forall i :: 0 <= i < |s| && !r[i].NaN? ==> r[i] == s[i]
  {
    seq(|s|, i requires 0 <= i < |s| => if i < |bits| && bits[i] then NaN else s[i])
  }

  /** A bound pair with both bounds masked. */
  function MaskPair(p: BoundPair, bits: seq<bool>): BoundPair
  {
    BoundPair(NdArray(p.lo.shape, MaskSeq(p.lo.data, bits)), NdArray(p.hi.shape, MaskSeq(p.hi.data, bits)))
  }

  /** The mask keys whose mask is not shaped like that key's lower bound. */
  function MaskFailures(b: Bounds, mask: Dict<MaskArray>): set<string>
    requires MaskOk(b, mask)
  {
    set k | k in mask.at && mask.at[k].shape != b.at[k].lo.shape
  }

  /** Every masked key's pair masked, every other pair as it was. */
  function Masked(b: Bounds, mask: Dict<MaskArray>): (r: Bounds)
    ensures r.keys == b.keys && r.at.Keys == b.at.Keys
    ensures forall k :: k in r.at ==>
              && r.at[k].lo.shape == b.at[k].lo.shape && |r.at[k].lo.data| == |b.at[k].lo.data|
              && r.at[k].hi.shape == b.at[k].hi.shape && |r.at[k].hi.data| == |b.at[k].hi.data|
  {
    Dict(b.keys, map k | k in b.at :: if k in mask.at then MaskPair(b.at[k], mask.at[k].bits) else b.at[k])
  }

  /** The specification of fixcon: the misshapen masks in mask order, or the
      bounds with every masked key's pair masked. */
  function MaskBounds(b: Bounds, mask: Dict<MaskArray>): (r: Result<Bounds>)
    requires MaskOk(b, mask)
    ensures r.Err? <==> exists k :: k in mask.at && mask.at[k].shape != b.at[k].lo.shape
    ensures r.Err? ==> r.error.MaskShape? && forall k :: k in r.error.keys <==> k in mask.keys && mask.at[k].shape != b.at[k].lo.shape
    ensures r.Err? ==> r.error.MaskShape? && InOrder(r.error.keys, mask.keys)
    ensures r.Err? ==> r.error.MaskShape? && Distinct(r.error.keys)
    ensures r.Ok? ==> r.value.keys == b.keys && r.value.at.Keys == b.at.Keys
    ensures r.Ok? ==> r.value == Masked(b, mask)
  {
    var bad := Filter(mask.keys, MaskFailures(b, mask));
    FilterOrder(mask.keys, MaskFailures(b, mask));
    FilterDistinct(mask.keys, MaskFailures(b, mask));
    if bad != [] then Err(MaskShape(bad)) else Ok(Masked(b, mask))
  }

  /** Masking leaves the shapes alone, so bounds that describe the
      parameters still do after it. */
  lemma MaskedConsistent(params: Params, b: Bounds, mask: Dict<MaskArray>)
    requires Consistent(params, b)
    ensures Consistent(params, Masked(b, mask))
  {
  }

  /** After masking, a masked position has NaN as both bounds and every
      other position keeps its bounds. */
  lemma MaskedElements(b: Bounds, mask: Dict<MaskArray>, k: string, i: int)
    requires k in b.at && 0 <= i < |b.at[k].lo.data| && 0 <= i < |b.at[k].hi.data|
    ensures k in Masked(b, mask).at
    ensures var p, m := b.at[k], Masked(b, mask).at[k];
            var bit := k in mask.at && i < |mask.at[k].bits| && mask.at[k].bits[i];
            && |m.lo.data| == |p.lo.data| && |m.hi.data| == |p.hi.data|
            && m.lo.data[i] == (if bit then NaN else p.lo.data[i])
            && m.hi.data[i] == (if bit then NaN else p.hi.data[i])
  {
  }

  /** The flat data of a (2,) + shape bounds array with NaN written at every
      true bit of row `row`: the numpy assignment `bounds[row][mask] = nan`. */
  function MaskRow(s: seq<Ext>, row: nat, bits: seq<bool>): (r: seq<Ext>)
    ensures |r| == |s|
  {
    var off := if row == 0 then 0 else |bits|;
    seq(|s|, i requires 0 <= i < |s| => if off <= i < off + |bits| && bits[i - off] then NaN else s[i])
  }

  /** Both rows masked with the same bits. */
  function MaskBoth(s: seq<Ext>, bits: seq<bool>): (r: seq<Ext>)
    ensures |r| == |s|
  {
    MaskRow(MaskRow(s, 0, bits), 1, bits)
  }

  /** Masking twice with the same bits is masking once. */
  lemma MaskBothTwice(s: seq<Ext>, bits: seq<bool>)
    ensures MaskBoth(MaskBoth(s, bits), bits) == MaskBoth(s, bits)
  {
  }

  /** Masking both rows of the array masks both bounds of its pair. */
  lemma MaskRowsHalves(shape: seq<nat>, s: seq<Ext>, bits: seq<bool>)
    requires |s| == 2 * Product(shape) && |bits| == Product(shape)
    ensures Halves(shape, MaskBoth(s, bits)) == MaskPair(Halves(shape, s), bits)
  {
    var n := |bits|;
    var m := MaskBoth(s, bits);
    var p := Halves(shape, s);
    assert m[..n] == MaskSeq(p.lo.data, bits);
    assert m[n..] == MaskSeq(p.hi.data, bits);
  }

  /** Every key of `shape` has a flat (2,) + shape array in `data`. */
  predicate Fits(shape: map<string, seq<nat>>, data: map<string, seq<Ext>>)
  {
    forall k :: k in shape ==> k in data && |data[k]| == 2 * Product(shape[k])
  }

  /** Bounds from the flat (2,) + shape array of every key. */
  function AsBounds(keys: seq<string>, shape: map<string, seq<nat>>, data: map<string, seq<Ext>>): (b: Bounds)
    requires Fits(shape, data)
    ensures b.keys == keys && b.at.Keys == shape.Keys
  {
    Dict(keys, map k | k in shape :: Halves(shape[k], data[k]))
  }

  /** The flat arrays after masking both rows of every key of `ks`, in order. */
  function MaskData(data: map<string, seq<Ext>>, ks: seq<string>, masks: map<string, MaskArray>)
    : (r: map<string, seq<Ext>>)
    ensures r.Keys == data.Keys
    ensures forall k :: k in data ==>
              r[k] == if k in ks && k in masks then MaskBoth(data[k], masks[k].bits) else data[k]
  {
    if ks == [] then data
    else
      var prev := MaskData(data, ks[..|ks| - 1], masks);
      var k := ks[|ks| - 1];
      assert ks == ks[..|ks| - 1] + [k];
      if k in prev && k in masks then
        MaskBothTwice(data[k], masks[k].bits);
        prev[k := MaskBoth(prev[k], masks[k].bits)]
      else prev
  }

  /** Masking both rows of every mask key's flat array masks the pairs of
      the bounds they hold. */
  lemma MaskDataBounds(keys: seq<string>, shape: map<string, seq<nat>>, data: map<string, seq<Ext>>,
                       mask: Dict<MaskArray>)
    requires Fits(shape, data) && mask.Valid()
    requires forall k :: k in mask.at ==> k in shape && |mask.at[k].bits| == Product(shape[k])
    ensures Fits(shape, MaskData(data, mask.keys, mask.at))
    ensures AsBounds(keys, shape, MaskData(data, mask.keys, mask.at)) == Masked(AsBounds(keys, shape, data), mask)
  {
    var m := MaskData(data, mask.keys, mask.at);
    var l := AsBounds(keys, shape, m);
    var r := Masked(AsBounds(keys, shape, data), mask);
    forall k | k in shape
      ensures l.at[k] == r.at[k]
    {
      MaskDataKey(keys, shape, data, mask, k);
    }
    SameMaps(l.at, r.at);
  }

  lemma MaskDataKey(keys: seq<string>, shape: map<string, seq<nat>>, data: map<string, seq<Ext>>,
                    mask: Dict<MaskArray>, k: string)
    requires Fits(shape, data) && mask.Valid()
    requires forall k :: k in mask.at ==> k in shape && |mask.at[k].bits| == Product(shape[k])
    requires k in shape
    ensures Fits(shape, MaskData(data, mask.keys, mask.at))
    ensures AsBounds(keys, shape, MaskData(data, mask.keys, mask.at)).at[k] == Masked(AsBounds(keys, shape, data), mask).at[k]
  {
    if k in mask.at {
      MaskRowsHalves(shape[k], data[k], mask.at[k].bits);
    }
  }

  /** Maps that agree on the same keys are equal. */
  lemma SameMaps<K, V>(l: map<K, V>, r: map<K, V>)
    requires l.Keys == r.Keys && forall k :: k in l ==> l[k] == r[k]
    ensures l == r
  {
  }

  /** numpy's masked assignment on one row, `a[row][m] = nan`, element by element. */
  method MaskRowInPlace(a: array<Ext>, row: nat, bits: seq<bool>)
    modifies a
    ensures a[..] == MaskRow(old(a[..]), row, bits)
  {
    var off := if row == 0 then 0 else |bits|;
    var j := 0;
    while j < |bits| && off + j < a.Length
      invariant 0 <= j <= |bits|
      invariant forall t :: 0 <= t < a.Length ==>
                  a[t] == if off <= t < off + j && bits[t - off] then NaN else old(a[t])
    {
      if bits[j] {
        a[off + j] := NaN;
      }
      j := j + 1;
    }
  }

  /** A fresh array holding `s`. */
  method NewArray(s: seq<Ext>) returns (a: array<Ext>)
    ensures fresh(a) && a[..] == s
  {
    a := new Ext[|s|](j requires 0 <= j < |s| => s[j]);
  }

  /** The position of `k` in `keys`. */
  function IndexOf(keys: seq<string>, k: string): (i: nat)
    requires k in keys
    ensures i < |keys| && keys[i] == k
  {
    if keys[0] == k then 0 else 1 + IndexOf(keys[1..], k)
  }

  /** Per-position data looked up by key. */
  function Keyed(keys: seq<string>, d: seq<seq<Ext>>): (m: map<string, seq<Ext>>)
    requires |d| == |keys| && Distinct(keys)
    ensures m.Keys == set k | k in keys
    ensures forall i :: 0 <= i < |keys| ==> m[keys[i]] == d[i]
  {
    map k | k in keys :: d[IndexOf(keys, k)]
  }

  lemma KeyedUpdate(keys: seq<string>, d: seq<seq<Ext>>, i: nat, x: seq<Ext>)
    requires |d| == |keys| && Distinct(keys) && i < |keys|
    ensures Keyed(keys, d[i := x]) == Keyed(keys, d)[keys[i] := x]
  {
    var l := Keyed(keys, d[i := x]);
    var r := Keyed(keys, d)[keys[i] := x];
    forall k | k in keys
      ensures l[k] == r[k]
    {
      var j := IndexOf(keys, k);
      if j != i {
        assert k != keys[i];
      }
    }
    SameMaps(l, r);
  }

  /** Masking the array of the next mask key extends the masked prefix by
      that key. */
  lemma MaskStep(keys: seq<string>, d: seq<seq<Ext>>, c0: map<string, seq<Ext>>,
                 ks: seq<string>, masks: map<string, MaskArray>, i: nat, j: nat)
    requires |d| == |keys| && Distinct(keys) && i < |ks| && j < |keys| && keys[j] == ks[i] && ks[i] in masks
    requires Keyed(keys, d) == MaskData(c0, ks[..i], masks)
    ensures Keyed(keys, d[j := MaskBoth(d[j], masks[ks[i]].bits)]) == MaskData(c0, ks[..i + 1], masks)
  {
    var k := ks[i];
    assert Keyed(keys, d)[k] == d[j];
    assert ks[..i + 1][..i] == ks[..i];
    MaskDataLast(c0, ks[..i + 1], masks);
    KeyedUpdate(keys, d, j, MaskBoth(d[j], masks[k].bits));
  }

  /** Masking a key sequence is masking all but its last key, then the last. */
  lemma MaskDataLast(c0: map<string, seq<Ext>>, ks: seq<string>, masks: map<string, MaskArray>)
    requires ks != [] && ks[|ks| - 1] in c0 && ks[|ks| - 1] in masks
    ensures var prev := MaskData(c0, ks[..|ks| - 1], masks);
            var k := ks[|ks| - 1];
            MaskData(c0, ks, masks) == prev[k := MaskBoth(prev[k], masks[k].bits)]
  {
  }

  /** The shape of every key's bounds. */
  function Shapes(b: Bounds): (m: map<string, seq<nat>>)
    ensures m.Keys == b.at.Keys
  {
    map k | k in b.at :: b.at[k].lo.shape
  }

  /** Every key's lower bound followed by its upper bound, in key order: the
      data of its (2,) + shape array. */
  function Flat(b: Bounds): (d: seq<seq<Ext>>)
    requires b.Valid()
    ensures |d| == |b.keys|
  {
    seq(|b.keys|, i requires 0 <= i < |b.keys| => b.at[b.keys[i]].lo.data + b.at[b.keys[i]].hi.data)
  }

  /** The bounds are recovered from their (2,) + shape arrays. */
  lemma FlatBounds(b: Bounds)
    requires b.Valid()
    requires forall k :: k in b.at ==>
               && WellShaped(b.at[k].lo) && WellShaped(b.at[k].hi) && b.at[k].lo.shape == b.at[k].hi.shape
    ensures Distinct(b.keys) && Fits(Shapes(b), Keyed(b.keys, Flat(b)))
    ensures AsBounds(b.keys, Shapes(b), Keyed(b.keys, Flat(b))) == b
  {
    var d := Keyed(b.keys, Flat(b));
    forall k | k in b.at
      ensures k in d && d[k] == b.at[k].lo.data + b.at[k].hi.data
    {
      var i := IndexOf(b.keys, k);
    }
    var v := AsBounds(b.keys, Shapes(b), d);
    forall k | k in b.at
      ensures v.at[k] == b.at[k]
    {
      var p := b.at[k];
      assert d[k][..|p.lo.data|] == p.lo.data;
      assert d[k][|p.lo.data|..] == p.hi.data;
    }
    SameMaps(v.at, b.at);
  }

  /** The prefix of a sequence up to its length is the sequence. */
  lemma AllKeys(ks: seq<string>)
    ensures ks[..|ks|] == ks
  {
  }

  /** The resolved bounds as numpy holds them: for each free key, in key
      order, one (2,) + shape array whose rows are the lower and the upper
      bound, a distinct object that fixcon updates in place. */
  class BoundsTable {
    const keys: seq<string>
    const shape: map<string, seq<nat>>
    const arrays: seq<array<Ext>>

    ghost predicate Valid()
    {
      && |arrays| == |keys| && Distinct(keys)
      && (forall k :: k in shape <==> k in keys)
      && (forall i, j :: 0 <= i < j < |arrays| ==> arrays[i] != arrays[j])
      && forall i :: 0 <= i < |arrays| ==> arrays[i].Length == 2 * Product(shape[keys[i]])
    }

    /** The flat data each array currently holds, in key order. */
    function Data(): (d: seq<seq<Ext>>)
      reads arrays
      ensures |d| == |arrays| && forall i :: 0 <= i < |arrays| ==> d[i] == arrays[i][..]
    {
      seq(|arrays|, i requires 0 <= i < |arrays| reads arrays => arrays[i][..])
    }

    /** The flat data looked up by key. */
    function Contents(): (c: map<string, seq<Ext>>)
      requires Valid()
      reads arrays
      ensures Fits(shape, c)
    {
      Keyed(keys, Data())
    }

    /** The bounds structure the arrays currently hold. */
    function View(): (b: Bounds)
      requires Valid()
      reads arrays
    {
      AsBounds(keys, shape, Contents())
    }

    /** Allocates a fresh array per key of `b`, in key order, holding its
        lower bound followed by its upper bound. */
    static method Allocate(b: Bounds) returns (arrs: seq<array<Ext>>)
      requires b.Valid()
      ensures |arrs| == |b.keys|
      ensures forall i :: 0 <= i < |arrs| ==> fresh(arrs[i])
      ensures forall i, j :: 0 <= i < j < |arrs| ==> arrs[i] != arrs[j]
      ensures forall i :: 0 <= i < |arrs| ==> arrs[i][..] == Flat(b)[i]
    {
      arrs := [];
      var i := 0;
      while i < |b.keys|
        invariant 0 <= i <= |b.keys| && |arrs| == i
        invariant forall j :: 0 <= j < i ==> fresh(arrs[j])
        invariant forall j, j' :: 0 <= j < j' < i ==> arrs[j] != arrs[j']
        invariant forall j :: 0 <= j < i ==> arrs[j][..] == Flat(b)[j]
      {
        var k := b.keys[i];
        var a := NewArray(b.at[k].lo.data + b.at[k].hi.data);
        arrs := arrs + [a];
        i := i + 1;
      }
    }

    /** Materialises resolved bounds as fresh arrays. */
    constructor (b: Bounds)
      requires b.Valid()
      requires forall k :: k in b.at ==>
                 && WellShaped(b.at[k].lo) && WellShaped(b.at[k].hi) && b.at[k].lo.shape == b.at[k].hi.shape
      ensures Valid() && View() == b
      ensures forall i :: 0 <= i < |arrays| ==> fresh(arrays[i])
    {
      var arrs := Allocate(b);
      keys := b.keys;
      shape := Shapes(b);
      arrays := arrs;
      new;
      assert Data() == Flat(b);
      FlatBounds(b);
    }

    /** Masks both rows of the array at position i, leaving every other array alone. */
    method MaskAt(i: nat, bits: seq<bool>)
      requires Valid() && i < |keys|
      modifies arrays[i]
      ensures Data() == old(Data())[i := MaskBoth(old(Data())[i], bits)]
    {
      MaskRowInPlace(arrays[i], 0, bits);
      MaskRowInPlace(arrays[i], 1, bits);
      assert Data() == old(Data())[i := MaskBoth(old(Data())[i], bits)];
    }

    /** The loop of fixcon: masks the keys of `mask` one after another. */
    method MaskAll(mask: Dict<MaskArray>)
      requires Valid() && mask.Valid()
      requires forall k :: k in mask.at ==> k in shape
      modifies arrays
      ensures Contents() == MaskData(old(Contents()), mask.keys, mask.at)
    {
      ghost var c0 := Contents();
      var ks := mask.keys;
      var i := 0;
      assert ks[..0] == [];
      while i < |ks|
        invariant 0 <= i <= |ks|
        invariant Contents() == MaskData(c0, ks[..i], mask.at)
      {
        MaskNext(mask, i, c0);
        i := i + 1;
      }
      AllKeys(ks);
    }

    /** One turn of fixcon's loop: masks the array of the i-th mask key. */
    method MaskNext(mask: Dict<MaskArray>, i: nat, ghost c0: map<string, seq<Ext>>)
      requires Valid() && mask.Valid() && i < |mask.keys|
      requires forall k :: k in mask.at ==> k in shape
      requires Contents() == MaskData(c0, mask.keys[..i], mask.at)
      modifies arrays
      ensures Contents() == MaskData(c0, mask.keys[..i + 1], mask.at)
    {
      var k := mask.keys[i];
      var j := IndexOf(keys, k);
      ghost var d := Data();
      MaskAt(j, mask.at[k].bits);
      MaskStep(keys, d, c0, mask.keys, mask.at, i, j);
    }

    /** fixcon: validate every mask, then overwrite both bounds with NaN at
        every true position, key by key in mask order. */
    method FixCon(mask: Dict<MaskArray>) returns (r: Result<Bounds>)
      requires Valid() && MaskOk(View(), mask)
      modifies arrays
      ensures r == MaskBounds(old(View()), mask)
      ensures r.Ok? ==> View() == r.value
      ensures r.Err? ==> View() == old(View())
    {
      var bad := Filter(mask.keys, MaskFailures(View(), mask));
      if bad != [] {
        return Err(MaskShape(bad));
      }
      ghost var c := Contents();
      MaskAll(mask);
      r := Ok(View());
      MaskDataBounds(keys, shape, c, mask);
    }
  }
}
