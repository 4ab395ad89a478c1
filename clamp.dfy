/**
 * Start-point clamping (`bndcon`): every element of every free parameter is
 * replaced by a value chosen from the mean of its two bounds.
 */
module Clamp {
  import opened ExtReal
  import opened NdArrays
  import opened Resolution

  /** An element lies within its bounds (every comparison with NaN fails). */
  predicate InBounds(v: Ext, lo: Ext, hi: Ext)
  {
    Le(lo, v) && Le(v, hi)
  }

  /** bndcon's rule for one element, driven by m = mean(lo, hi). */
  function ClampElem(v: Ext, lo: Ext, hi: Ext): (r: Ext)
    ensures lo.NaN? || hi.NaN? ==> r == v
    ensures lo == NegInf && hi == PosInf ==> r == v
    ensures lo.Fin? && hi.Fin? ==> r == Fin((lo.x + hi.x) / 2.0)
    ensures lo.Fin? && hi == PosInf ==> r == if Lt(v, lo) then lo else PosInf
    ensures lo == NegInf && hi.Fin? ==> r == if Lt(hi, v) then hi else NegInf
    ensures lo == PosInf && !hi.NaN? && hi != NegInf ==> r == PosInf
    ensures hi == NegInf && !lo.NaN? && lo != PosInf ==> r == NegInf
    ensures lo == PosInf && hi == NegInf ==> r == v
  {
    var m := Mean(lo, hi);
    if m == PosInf && Lt(v, lo) then lo
    else if m == NegInf && Lt(hi, v) then hi
    else if m.NaN? then v
    else m
  }

  /** With ordered bounds the clamped element lies within them; only an
      unbounded element keeps its own value, so only a NaN there stays out. */
  lemma ClampInBounds(v: Ext, lo: Ext, hi: Ext)
    requires Le(lo, hi)
    ensures InBounds(ClampElem(v, lo, hi), lo, hi) <==> !(lo == NegInf && hi == PosInf && v.NaN?)
  {
    if lo.Fin? && hi.Fin? {
      MeanBetween(lo, hi);
    }
  }

  /** The rule applied position by position to a flattened parameter. */
  function ClampSeq(v: seq<Ext>, lo: seq<Ext>, hi: seq<Ext>): (r: seq<Ext>)
    requires |lo| == |v| && |hi| == |v|
    ensures |r| == |v|
  {
    seq(|v|, i requires 0 <= i < |v| => ClampElem(v[i], lo[i], hi[i]))
  }

  /** bndcon: the clamped start point of every free parameter, reshaped to
      the parameter's shape. Only the free keys are returned. */
  function BndCon(params: Params, b: Bounds): (r: Params)
    requires Consistent(params, b)
    ensures r.Keys == b.at.Keys
    ensures forall k :: k in r ==> r[k].shape == params[k].shape && WellShaped(r[k])
  {
    map k | k in b.at :: NdArray(params[k].shape, ClampSeq(params[k].data, b.at[k].lo.data, b.at[k].hi.data))
  }

  /** What bndcon makes of each element: a fixed element (NaN bounds) and an
      unbounded one keep their value, a finitely bounded one becomes the
      midpoint, a half-bounded one becomes its finite bound when it lies
      beyond it and the infinite bound otherwise. Parameters that are not
      free are dropped. */
  lemma BndConElements(params: Params, b: Bounds, k: string, i: int)
    requires Consistent(params, b) && k in b.at && 0 <= i < |params[k].data|
    ensures k in BndCon(params, b) && |BndCon(params, b)[k].data| == |params[k].data|
    ensures var v, lo, hi, r := params[k].data[i], b.at[k].lo.data[i], b.at[k].hi.data[i], BndCon(params, b)[k].data[i];
            && (lo.NaN? || hi.NaN? || (lo == NegInf && hi == PosInf) ==> r == v)
            && (lo.Fin? && hi.Fin? ==> r == Fin((lo.x + hi.x) / 2.0))
            && (lo.Fin? && hi == PosInf ==> r == if Lt(v, lo) then lo else PosInf)
            && (lo == NegInf && hi.Fin? ==> r == if Lt(hi, v) then hi else NegInf)
            && r == ClampElem(v, lo, hi)
  {
  }

  /** The clamped start point satisfies every bound pair that is ordered,
      except where an unbounded element holds NaN. */
  lemma BndConInBounds(params: Params, b: Bounds, k: string, i: int)
    requires Consistent(params, b) && k in b.at && 0 <= i < |params[k].data|
    requires Le(b.at[k].lo.data[i], b.at[k].hi.data[i])
    requires !(b.at[k].lo.data[i] == NegInf && b.at[k].hi.data[i] == PosInf && params[k].data[i].NaN?)
    ensures InBounds(BndCon(params, b)[k].data[i], b.at[k].lo.data[i], b.at[k].hi.data[i])
  {
    ClampInBounds(params[k].data[i], b.at[k].lo.data[i], b.at[k].hi.data[i]);
  }

  /** The clamped start point is shaped like the original parameters, so the
      bounds still describe it. */
  lemma BndConConsistent(params: Params, b: Bounds)
    requires Consistent(params, b)
    ensures Consistent(BndCon(params, b), b)
  {
  }

  /** A position may be started: its lower bound is NaN (it is not in play),
      or its bounds are ordered and it is not an unbounded NaN. */
  predicate Admissible(v: Ext, lo: Ext, hi: Ext)
  {
    lo.NaN? || (Le(lo, hi) && !(lo == NegInf && hi == PosInf && v.NaN?))
  }

  /** An in-play element can be clamped into its bounds exactly when the
      position is admissible. */
  lemma ClampAdmissible(v: Ext, lo: Ext, hi: Ext)
    requires !lo.NaN?
    ensures InBounds(ClampElem(v, lo, hi), lo, hi) <==> Admissible(v, lo, hi)
  {
    if Le(lo, hi) {
      ClampInBounds(v, lo, hi);
    } else {
      LeOrder(lo, ClampElem(v, lo, hi), hi);
    }
  }
}
