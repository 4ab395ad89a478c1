/**
 * The optimiser's vector (`params2vals` packing, `vals2params`): the
 * elements in play — those whose lower bound is not NaN — of every free
 * parameter, in bounds order and row-major order within a parameter.
 */
module Codec {
  import opened ExtReal
  import opened NdArrays
  import opened Resolution
  import opened Masking
  import opened Layout

  /** Number of elements in play: those whose lower bound is not NaN. */
  function FreeCount(lo: seq<Ext>): (n: nat)
    ensures n <= |lo|
  {
    if lo == [] then 0
    else FreeCount(lo[..|lo| - 1]) + (if lo[|lo| - 1].NaN? then 0 else 1)
  }

  /** The elements of v in play, in order. */
  function Select(v: seq<Ext>, lo: seq<Ext>): (r: seq<Ext>)
    requires |v| == |lo|
    ensures |r| == FreeCount(lo)
  {
    if lo == [] then []
    else
      var n := |lo| - 1;
      Select(v[..n], lo[..n]) + (if lo[n].NaN? then [] else [v[n]])
  }

  /** The inverse of Select: the elements in play taken from w in order,
      the others from orig (numpy's insert of the fixed values at their
      positions). */
  function Fill(lo: seq<Ext>, w: seq<Ext>, orig: seq<Ext>): (r: seq<Ext>)
    requires |orig| == |lo| && |w| == FreeCount(lo)
    ensures |r| == |lo|
  {
    if lo == [] then []
    else
      var n := |lo| - 1;
      if lo[n].NaN? then Fill(lo[..n], w, orig[..n]) + [orig[n]]
      else Fill(lo[..n], w[..|w| - 1], orig[..n]) + [w[|w| - 1]]
  }

  /** The rank of element i among the elements in play: how many of the
      elements before it are in play. */
  function Rank(lo: seq<Ext>, i: int): nat
    requires 0 <= i <= |lo|
  {
    FreeCount(lo[..i])
  }

  /** An element in play lands in the vector at its rank among the elements
      in play before it. */
  lemma {:induction false} SelectAt(v: seq<Ext>, lo: seq<Ext>, i: int)
    requires |v| == |lo| && 0 <= i < |lo| && !lo[i].NaN?
    ensures Rank(lo, i) < FreeCount(lo)
    ensures Select(v, lo)[Rank(lo, i)] == v[i]
  {
    var n := |lo| - 1;
    assert lo[..n] == lo[..|lo| - 1];
    if i < n {
      assert lo[..n][..i] == lo[..i];
      SelectAt(v[..n], lo[..n], i);
    } else {
      assert lo[..i] == lo[..n];
    }
  }

  /** Every element of Fill: the original where the element is fixed, the
      next unused vector entry where it is in play. */
  lemma {:induction false} FillAt(lo: seq<Ext>, w: seq<Ext>, orig: seq<Ext>, i: int)
    requires |orig| == |lo| && |w| == FreeCount(lo) && 0 <= i < |lo|
    ensures !lo[i].NaN? ==> Rank(lo, i) < |w|
    ensures Fill(lo, w, orig)[i] == if lo[i].NaN? then orig[i] else w[Rank(lo, i)]
  {
    var n := |lo| - 1;
    assert lo[..n] == lo[..|lo| - 1];
    if i < n {
      assert lo[..n][..i] == lo[..i];
      if lo[n].NaN? {
        FillAt(lo[..n], w, orig[..n], i);
      } else {
        FillAt(lo[..n], w[..|w| - 1], orig[..n], i);
      }
    } else {
      assert lo[..i] == lo[..n];
    }
  }

  /** Filling then selecting gives the vector back. */
  lemma {:induction false} SelectFill(lo: seq<Ext>, w: seq<Ext>, orig: seq<Ext>)
    requires |orig| == |lo| && |w| == FreeCount(lo)
    ensures Select(Fill(lo, w, orig), lo) == w
  {
    if lo != [] {
      var n := |lo| - 1;
      var f := Fill(lo, w, orig);
      if lo[n].NaN? {
        SelectFill(lo[..n], w, orig[..n]);
        assert f[..n] == Fill(lo[..n], w, orig[..n]);
      } else {
        SelectFill(lo[..n], w[..|w| - 1], orig[..n]);
        assert f[..n] == Fill(lo[..n], w[..|w| - 1], orig[..n]);
        assert w == w[..|w| - 1] + [w[|w| - 1]];
      }
    }
  }

  /** Selecting then filling from the same data gives the data back. */
  lemma FillSelect(v: seq<Ext>, lo: seq<Ext>)
    requires |v| == |lo|
    ensures Fill(lo, Select(v, lo), v) == v
  {
    var w := Select(v, lo);
    forall i | 0 <= i < |lo|
      ensures Fill(lo, w, v)[i] == v[i]
    {
      FillAt(lo, w, v, i);
      if !lo[i].NaN? {
        SelectAt(v, lo, i);
      }
    }
  }

  /** The lower bound data of a key, empty for a key without bounds. */
  function Lower(b: Bounds, k: string): seq<Ext>
  {
    if k in b.at then b.at[k].lo.data else []
  }

  /** The number of elements in play of every free key. */
  function FreeCounts(b: Bounds): (n: map<string, nat>)
    ensures forall k :: Count(n, k) == FreeCount(Lower(b, k))
  {
    map k | k in b.at :: FreeCount(b.at[k].lo.data)
  }

  /** Length of the optimiser's vector. */
  function TotalFree(b: Bounds): nat
  {
    Width(b.keys, FreeCounts(b))
  }

  /** A free key whose parameter has as many elements as lower bounds. */
  predicate Aligned(params: Params, b: Bounds, k: string)
  {
    k in params && k in b.at && |params[k].data| == |b.at[k].lo.data|
  }

  /** Valid bounds whose every free key is aligned. */
  predicate Matched(params: Params, b: Bounds)
  {
    b.Valid() && forall k :: k in b.at ==> Aligned(params, b, k)
  }

  /** Parameters shaped like their bounds are matched with them. */
  lemma ConsistentMatched(params: Params, b: Bounds)
    requires Consistent(params, b)
    ensures Matched(params, b)
  {
  }

  /** The elements in play of every aligned free key. */
  function InPlay(params: Params, b: Bounds): (m: map<string, seq<Ext>>)
    ensures forall k :: Aligned(params, b, k) ==> Part(m, k) == Select(params[k].data, b.at[k].lo.data)
  {
    map k | k in b.at && Aligned(params, b, k) :: Select(params[k].data, b.at[k].lo.data)
  }

  /** The vector of params2vals: for each free key in bounds order, its
      elements in play in row-major order. */
  function Pack(params: Params, b: Bounds): (r: seq<Ext>)
    ensures Matched(params, b) ==> |r| == TotalFree(b)
  {
    var r := Concat(b.keys, InPlay(params, b));
    if Matched(params, b) then
      PackFitted(params, b);
      ConcatLength(b.keys, InPlay(params, b), FreeCounts(b));
      r
    else r
  }

  /** With consistent parameters every key's part has its width. */
  lemma PackFitted(params: Params, b: Bounds)
    requires Matched(params, b)
    ensures Fitted(b.keys, InPlay(params, b), FreeCounts(b))
  {
    forall i | 0 <= i < |b.keys|
      ensures |Part(InPlay(params, b), b.keys[i])| == Count(FreeCounts(b), b.keys[i])
    {
      assert Aligned(params, b, b.keys[i]);
    }
  }

  /** The stretch of the vector that belongs to free key k. */
  function Slot(vals: seq<Ext>, b: Bounds, k: string): (w: seq<Ext>)
    requires k in b.keys
    ensures TotalFree(b) <= |vals| ==> |w| == FreeCount(Lower(b, k))
  {
    var j := IndexOf(b.keys, k);
    WidthLast(b.keys, FreeCounts(b), j);
    WidthPrefix(b.keys, FreeCounts(b), j + 1);
    Cut(b.keys, FreeCounts(b), vals, j)
  }

  /** Each free key's stretch of the packed vector is its elements in play. */
  lemma PackSlot(params: Params, b: Bounds, k: string)
    requires Matched(params, b) && k in b.at
    ensures Slot(Pack(params, b), b, k) == Select(params[k].data, b.at[k].lo.data)
  {
    PackFitted(params, b);
    CutConcat(b.keys, InPlay(params, b), FreeCounts(b), IndexOf(b.keys, k));
    assert Aligned(params, b, k);
  }

  /** One free parameter rebuilt from its stretch of the vector and its own
      fixed elements. */
  function UnpackKey(vals: seq<Ext>, b: Bounds, k: string, p: NdArray): (a: NdArray)
    requires k in b.keys && TotalFree(b) <= |vals| && |p.data| == |Lower(b, k)|
    ensures a.shape == p.shape && |a.data| == |p.data|
  {
    NdArray(p.shape, Fill(Lower(b, k), Slot(vals, b, k), p.data))
  }

  /** vals2params: every free parameter rebuilt from the vector, every other
      parameter kept. */
  function Unpack(vals: seq<Ext>, params: Params, b: Bounds): (r: Params)
    requires Matched(params, b) && TotalFree(b) <= |vals|
    ensures r.Keys == params.Keys
    ensures forall k :: k in r && k !in b.at ==> r[k] == params[k]
    ensures forall k :: k in r && k in b.at ==> r[k] == UnpackKey(vals, b, k, params[k])
  {
    map k | k in params :: if k in b.at then UnpackKey(vals, b, k, params[k]) else params[k]
  }

  /** Unpacking keeps every parameter's length, so it stays matched. */
  lemma UnpackMatched(vals: seq<Ext>, params: Params, b: Bounds)
    requires Matched(params, b) && TotalFree(b) <= |vals|
    ensures Matched(Unpack(vals, params, b), b)
  {
    var u := Unpack(vals, params, b);
    forall k | k in b.at ensures Aligned(u, b, k) {
      assert u[k] == UnpackKey(vals, b, k, params[k]);
    }
  }

  /** Unpacking keeps every parameter's shape, so the bounds still fit. */
  lemma UnpackConsistent(vals: seq<Ext>, params: Params, b: Bounds)
    requires Consistent(params, b) && TotalFree(b) <= |vals|
    ensures Matched(params, b)
    ensures Consistent(Unpack(vals, params, b), b)
  {
    ConsistentMatched(params, b);
    var u := Unpack(vals, params, b);
    forall k | k in b.at
      ensures k in u && WellShaped(u[k]) && u[k].shape == params[k].shape
    {
      assert u[k] == UnpackKey(vals, b, k, params[k]);
    }
  }

  /** Where the stretch of free key k starts in the vector. */
  function Offset(b: Bounds, k: string): nat
    requires k in b.keys
  {
    Width(b.keys[..IndexOf(b.keys, k)], FreeCounts(b))
  }

  /** Free keys' stretches follow the key order: an earlier key's stretch
      ends before a later key's begins. */
  lemma OffsetOrder(b: Bounds, j: int, j2: int)
    requires b.Valid() && 0 <= j < j2 < |b.keys|
    ensures Offset(b, b.keys[j]) + FreeCount(Lower(b, b.keys[j])) <= Offset(b, b.keys[j2])
  {
    var ks, n := b.keys, FreeCounts(b);
    assert IndexOf(ks, ks[j]) == j && IndexOf(ks, ks[j2]) == j2;
    WidthLast(ks, n, j);
    assert ks[..j2][..j + 1] == ks[..j + 1];
    WidthPrefix(ks[..j2], n, j + 1);
  }

  /** Where element i of free key k sits in the vector: the key's offset
      plus the element's rank among the key's elements in play. */
  function Place(b: Bounds, k: string, i: int): nat
    requires k in b.keys && 0 <= i <= |Lower(b, k)|
  {
    Offset(b, k) + Rank(Lower(b, k), i)
  }

  /** Where each element in play lands in the packed vector: at its place. */
  lemma PackAt(params: Params, b: Bounds, k: string, i: int)
    requires Matched(params, b) && k in b.at && 0 <= i < |params[k].data| && !b.at[k].lo.data[i].NaN?
    ensures Place(b, k, i) < |Pack(params, b)|
    ensures Pack(params, b)[Place(b, k, i)] == params[k].data[i]
  {
    PackSlot(params, b, k);
    assert Lower(b, k) == b.at[k].lo.data;
    SlotSelectAt(Pack(params, b), b, k, params[k].data, i);
  }

  /** A stretch holding the elements in play of v puts element i at its
      place. */
  lemma SlotSelectAt(vals: seq<Ext>, b: Bounds, k: string, v: seq<Ext>, i: int)
    requires k in b.keys && TotalFree(b) <= |vals| && |v| == |Lower(b, k)| && 0 <= i < |v| && !Lower(b, k)[i].NaN?
    requires Slot(vals, b, k) == Select(v, Lower(b, k))
    ensures Place(b, k, i) < TotalFree(b)
    ensures vals[Place(b, k, i)] == v[i]
  {
    SelectAt(v, Lower(b, k), i);
    SlotPlace(vals, b, k, i, v[i]);
  }

  /** Where each element of an unpacked free parameter comes from: a fixed
      element from the parameter as given, an element in play from the
      vector, at its place. */
  lemma UnpackAt(vals: seq<Ext>, params: Params, b: Bounds, k: string, i: int)
    requires Matched(params, b) && TotalFree(b) <= |vals|
    requires k in b.at && 0 <= i < |params[k].data|
    ensures b.at[k].lo.data[i].NaN? ==> Unpack(vals, params, b)[k].data[i] == params[k].data[i]
    ensures !b.at[k].lo.data[i].NaN? ==>
              && Place(b, k, i) < TotalFree(b)
              && Unpack(vals, params, b)[k].data[i] == vals[Place(b, k, i)]
  {
    assert Unpack(vals, params, b)[k] == UnpackKey(vals, b, k, params[k]);
    assert Lower(b, k) == b.at[k].lo.data;
    if b.at[k].lo.data[i].NaN? {
      UnpackKeyAt(vals, b, k, params[k], i);
    } else {
      UnpackKeyFreeAt(vals, b, k, params[k], i);
    }
  }

  /** An in-play element of a rebuilt parameter is the vector's entry at
      its place. */
  lemma UnpackKeyFreeAt(vals: seq<Ext>, b: Bounds, k: string, p: NdArray, i: int)
    requires b.Valid() && k in b.at && TotalFree(b) <= |vals| && |p.data| == |Lower(b, k)| && 0 <= i < |p.data|
    requires !Lower(b, k)[i].NaN?
    ensures Place(b, k, i) < TotalFree(b)
    ensures UnpackKey(vals, b, k, p).data[i] == vals[Place(b, k, i)]
  {
    UnpackKeyAt(vals, b, k, p, i);
    SlotPlace(vals, b, k, i, UnpackKey(vals, b, k, p).data[i]);
  }

  /** The entry of a key's stretch at an element's rank is the vector's
      entry at the element's place. */
  lemma SlotPlace(vals: seq<Ext>, b: Bounds, k: string, i: int, x: Ext)
    requires k in b.keys && TotalFree(b) <= |vals| && 0 <= i < |Lower(b, k)|
    requires Rank(Lower(b, k), i) < |Slot(vals, b, k)| && Slot(vals, b, k)[Rank(Lower(b, k), i)] == x
    ensures Place(b, k, i) < TotalFree(b) && x == vals[Place(b, k, i)]
  {
    SlotAt(vals, b, k, Rank(Lower(b, k), i));
  }

  lemma UnpackKeyAt(vals: seq<Ext>, b: Bounds, k: string, p: NdArray, i: int)
    requires b.Valid() && k in b.at && TotalFree(b) <= |vals| && |p.data| == |Lower(b, k)| && 0 <= i < |p.data|
    ensures Lower(b, k)[i].NaN? ==> UnpackKey(vals, b, k, p).data[i] == p.data[i]
    ensures !Lower(b, k)[i].NaN? ==>
              && Rank(Lower(b, k), i) < |Slot(vals, b, k)|
              && UnpackKey(vals, b, k, p).data[i] == Slot(vals, b, k)[Rank(Lower(b, k), i)]
  {
    FillAt(Lower(b, k), Slot(vals, b, k), p.data, i);
  }

  /** Entry r of a key's stretch is entry Offset + r of the vector. */
  lemma SlotAt(vals: seq<Ext>, b: Bounds, k: string, r: int)
    requires k in b.keys && TotalFree(b) <= |vals| && 0 <= r < FreeCount(Lower(b, k))
    ensures Offset(b, k) + r < TotalFree(b)
    ensures Slot(vals, b, k)[r] == vals[Offset(b, k) + r]
  {
    var j := IndexOf(b.keys, k);
    assert Slot(vals, b, k) == Cut(b.keys, FreeCounts(b), vals, j);
    CutAt(b.keys, FreeCounts(b), vals, j, r);
  }

  /** Unpacking the packed vector gives the parameters back. */
  lemma UnpackPack(params: Params, b: Bounds)
    requires Matched(params, b)
    ensures |Pack(params, b)| == TotalFree(b)
    ensures Unpack(Pack(params, b), params, b) == params
  {
    var vals := Pack(params, b);
    var u := Unpack(vals, params, b);
    forall k | k in params
      ensures u[k] == params[k]
    {
      if k in b.at {
        PackSlot(params, b, k);
        FillSelect(params[k].data, b.at[k].lo.data);
        assert u[k] == UnpackKey(vals, b, k, params[k]);
      }
    }
    SameMaps(u, params);
  }

  /** Packing unpacked parameters gives the vector back, up to its length in play. */
  lemma PackUnpack(vals: seq<Ext>, params: Params, b: Bounds)
    requires Matched(params, b) && TotalFree(b) <= |vals|
    ensures Pack(Unpack(vals, params, b), b) == vals[..TotalFree(b)]
    ensures |vals| == TotalFree(b) ==> Pack(Unpack(vals, params, b), b) == vals
  {
    var u := Unpack(vals, params, b);
    UnpackMatched(vals, params, b);
    forall j | 0 <= j < |b.keys|
      ensures Cut(b.keys, FreeCounts(b), vals, j) == Part(InPlay(u, b), b.keys[j])
    {
      var k := b.keys[j];
      assert IndexOf(b.keys, k) == j;
      KeyValsUnpacked(vals, params, b, k);
    }
    ConcatOfCuts(b.keys, InPlay(u, b), FreeCounts(b), vals);
    assert |vals| == TotalFree(b) ==> vals[..TotalFree(b)] == vals;
  }

  /** The elements in play of an unpacked key are its stretch of the vector. */
  lemma KeyValsUnpacked(vals: seq<Ext>, params: Params, b: Bounds, k: string)
    requires Matched(params, b) && TotalFree(b) <= |vals| && k in b.at
    requires Matched(Unpack(vals, params, b), b)
    ensures Part(InPlay(Unpack(vals, params, b), b), k) == Slot(vals, b, k)
  {
    var u := Unpack(vals, params, b);
    var lo := b.at[k].lo.data;
    var w := Slot(vals, b, k);
    assert u[k].data == Fill(lo, w, params[k].data);
    assert Aligned(u, b, k);
    SelectFill(lo, w, params[k].data);
  }
}
