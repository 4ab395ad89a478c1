/**
 * The objective the optimiser minimises (`nancon`, `fitFunction`): the
 * model's value at the unpacked parameters plus an infinite penalty when
 * any element in play lies outside its bounds.
 */
module Objective {
  import opened ExtReal
  import opened Resolution
  import opened Clamp
  import opened Codec

  /** The model being fitted: a value for every assignment of parameters. */
  type Model = Params -> Ext

  /** nancon: some element in play lies outside its bounds. */
  function NanCon(v: seq<Ext>, lo: seq<Ext>, hi: seq<Ext>): (r: bool)
    requires |lo| == |v| && |hi| == |v|
    ensures (forall i :: 0 <= i < |v| ==> lo[i].NaN?) ==> !r
  {
    if v == [] then false
    else
      var n := |v| - 1;
      NanCon(v[..n], lo[..n], hi[..n]) || (!lo[n].NaN? && !InBounds(v[n], lo[n], hi[n]))
  }

  /** nancon holds exactly when some element whose lower bound is not NaN
      fails a bound comparison; a NaN value or a NaN upper bound fails it. */
  lemma {:induction false} NanConExists(v: seq<Ext>, lo: seq<Ext>, hi: seq<Ext>)
    requires |lo| == |v| && |hi| == |v|
    ensures NanCon(v, lo, hi) <==> exists i :: 0 <= i < |v| && !lo[i].NaN? && !InBounds(v[i], lo[i], hi[i])
  {
    if v != [] {
      var n := |v| - 1;
      NanConExists(v[..n], lo[..n], hi[..n]);
      if NanCon(v[..n], lo[..n], hi[..n]) {
        var i :| 0 <= i < n && !lo[..n][i].NaN? && !InBounds(v[..n][i], lo[..n][i], hi[..n][i]);
        assert v[..n][i] == v[i] && lo[..n][i] == lo[i] && hi[..n][i] == hi[i];
      }
      if exists i :: 0 <= i < |v| && !lo[i].NaN? && !InBounds(v[i], lo[i], hi[i]) {
        var i :| 0 <= i < |v| && !lo[i].NaN? && !InBounds(v[i], lo[i], hi[i]);
        if i < n {
          assert v[..n][i] == v[i] && lo[..n][i] == lo[i] && hi[..n][i] == hi[i];
        }
      }
    }
  }

  /** Free key k's parameter violates its bounds. */
  predicate Violated(params: Params, b: Bounds, k: string)
  {
    && k in params && k in b.at
    && |b.at[k].lo.data| == |params[k].data| && |b.at[k].hi.data| == |params[k].data|
    && NanCon(params[k].data, b.at[k].lo.data, b.at[k].hi.data)
  }

  /** The list fitFunction sums, one entry per listed key: whether that key
      violates its bounds. */
  function Flags(ks: seq<string>, params: Params, b: Bounds): (r: seq<bool>)
    ensures |r| == |ks|
    ensures forall i :: 0 <= i < |ks| ==> r[i] == Violated(params, b, ks[i])
  {
    seq(|ks|, i requires 0 <= i < |ks| => Violated(params, b, ks[i]))
  }

  /** np.sum over the penalty list: +inf for each set flag, 0 for the others. */
  function Sum(flags: seq<bool>): (r: Ext)
    ensures r == PosInf || r == Fin(0.0)
  {
    if flags == [] then Fin(0.0)
    else Add(Sum(flags[..|flags| - 1]), if flags[|flags| - 1] then PosInf else Fin(0.0))
  }

  /** The sum is +inf when some flag is set and 0 otherwise: it is never NaN
      and never -inf. */
  lemma {:induction false} SumOfFlags(flags: seq<bool>)
    ensures Sum(flags) == if true in flags then PosInf else Fin(0.0)
  {
    if flags != [] {
      var n := |flags| - 1;
      SumOfFlags(flags[..n]);
      InLast(flags);
      AddPenalty(Sum(flags[..n]), flags[n]);
    }
  }

  /** A value is in a non-empty sequence exactly when it is in the prefix or
      is the last element. */
  lemma InLast(flags: seq<bool>)
    requires flags != []
    ensures true in flags <==> true in flags[..|flags| - 1] || flags[|flags| - 1]
  {
    assert flags == flags[..|flags| - 1] + [flags[|flags| - 1]];
  }

  /** Adding one penalty term to a partial sum that is +inf or 0. */
  lemma AddPenalty(rest: Ext, flag: bool)
    requires rest == PosInf || rest == Fin(0.0)
    ensures Add(rest, if flag then PosInf else Fin(0.0)) == if rest == PosInf || flag then PosInf else Fin(0.0)
  {
  }

  /** Some free parameter violates its bounds. */
  predicate Infeasible(params: Params, b: Bounds)
  {
    true in Flags(b.keys, params, b)
  }

  /** Infeasibility means exactly that some free key violates its bounds. */
  lemma InfeasibleExists(params: Params, b: Bounds)
    ensures Infeasible(params, b) <==> exists i :: 0 <= i < |b.keys| && Violated(params, b, b.keys[i])
  {
    var f := Flags(b.keys, params, b);
    if Infeasible(params, b) {
      var i :| 0 <= i < |f| && f[i];
    }
  }

  /** fitFunction: the model at the parameters unpacked from the vector plus
      the penalty. Within bounds it is the model's value; outside, +inf,
      or NaN when the model itself gives NaN or -inf. */
  function FitFunction(vals: seq<Ext>, model: Model, params: Params, b: Bounds): (r: Ext)
    requires Matched(params, b) && TotalFree(b) <= |vals|
    ensures !Infeasible(Unpack(vals, params, b), b) ==> r == model(Unpack(vals, params, b))
    ensures Infeasible(Unpack(vals, params, b), b) ==>
              r == if model(Unpack(vals, params, b)).NaN? || model(Unpack(vals, params, b)) == NegInf then NaN else PosInf
  {
    var p := Unpack(vals, params, b);
    SumOfFlags(Flags(b.keys, p, b));
    Add(model(p), Sum(Flags(b.keys, p, b)))
  }

  /** Every in-play position of every free parameter is admissible. */
  predicate StartOk(params: Params, b: Bounds)
    requires Consistent(params, b)
  {
    forall k :: k in b.at ==> forall i :: 0 <= i < |params[k].data| ==>
      Admissible(params[k].data[i], b.at[k].lo.data[i], b.at[k].hi.data[i])
  }

  /** One key of the clamped start point violates its bounds exactly when
      one of its in-play positions is not admissible. */
  lemma StartKey(params: Params, b: Bounds, k: string)
    requires Consistent(params, b) && k in b.at
    ensures Violated(BndCon(params, b), b, k) <==>
            exists i :: 0 <= i < |params[k].data| && !Admissible(params[k].data[i], b.at[k].lo.data[i], b.at[k].hi.data[i])
  {
    var v, lo, hi := BndCon(params, b)[k].data, b.at[k].lo.data, b.at[k].hi.data;
    NanConExists(v, lo, hi);
    forall i | 0 <= i < |v| && !lo[i].NaN?
      ensures InBounds(v[i], lo[i], hi[i]) <==> Admissible(params[k].data[i], lo[i], hi[i])
    {
      ClampAdmissible(params[k].data[i], lo[i], hi[i]);
    }
  }

  /** bndcon's start point is feasible exactly when every in-play position
      is admissible: ordered bounds, and no NaN where both bounds are
      infinite. */
  lemma StartFeasible(params: Params, b: Bounds)
    requires Consistent(params, b)
    ensures !Infeasible(BndCon(params, b), b) <==> StartOk(params, b)
  {
    var start := BndCon(params, b);
    InfeasibleExists(start, b);
    forall k | k in b.at
      ensures Violated(start, b, k) <==>
              exists i :: 0 <= i < |params[k].data| && !Admissible(params[k].data[i], b.at[k].lo.data[i], b.at[k].hi.data[i])
    {
      StartKey(params, b, k);
    }
  }

  /** The objective at the packed start point is the model's value there:
      the vector unpacks to the start point itself, which is feasible. */
  lemma StartObjective(params: Params, b: Bounds, model: Model)
    requires Consistent(params, b) && StartOk(params, b)
    ensures Matched(BndCon(params, b), b) && |Pack(BndCon(params, b), b)| == TotalFree(b)
    ensures FitFunction(Pack(BndCon(params, b), b), model, BndCon(params, b), b) == model(BndCon(params, b))
  {
    var start := BndCon(params, b);
    BndConConsistent(params, b);
    ConsistentMatched(start, b);
    UnpackPack(start, b);
    StartFeasible(params, b);
  }
}
