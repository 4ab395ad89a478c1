/**
 * The fitting pipeline (`params2vals`, `fitcon`, `fit`): resolve the bounds,
 * apply the mask, clamp the start point, pack it into the optimiser's
 * vector, run the optimiser on the penalised objective and unpack its best
 * vector into parameters.
 */
module Fitting {
  import opened ExtReal
  import opened Outcomes
  import opened Dicts
  import opened NdArrays
  import opened Resolution
  import opened Masking
  import opened Clamp
  import opened Codec
  import opened Objective

  /** What params2vals hands to the optimiser: the packed start vector, the
      clamped start point (free keys only) and the masked bounds. */
  datatype Prepared = Prepared(vals: seq<Ext>, start: Params, bounds: Bounds)

  /** A derivative-free minimiser (the Nelder-Mead search of the optimiser
      library): from an objective and a seed vector to the best vector found
      and the objective's value there. */
  type Minimizer = (seq<Ext> --> Ext, seq<Ext>) -> (seq<Ext>, Ext)

  /** The minimiser searches the space of the seed: its best vector has the
      seed's length. */
  ghost predicate KeepsLength(fmin: Minimizer)
  {
    forall f: seq<Ext> --> Ext, x: seq<Ext> :: |fmin(f, x).0| == |x|
  }

  /** What the caller must supply: every free key and every mask key names a
      parameter (a missing one is a KeyError), and every array is well formed. */
  predicate PrepareOk(params: map<string, Value>, free: Dict<FreeSpec>, mask: Dict<MaskArray>)
  {
    && InputsOk(params, free)
    && mask.Valid()
    && forall k :: k in mask.at ==> k in free.at && |mask.at[k].bits| == Product(mask.at[k].shape)
  }

  /** Resolved bounds have exactly the free keys. */
  lemma EditConKeys(params: map<string, Value>, free: Dict<FreeSpec>)
    requires InputsOk(params, free) && EditCon(params, free).Ok?
    ensures EditCon(params, free).value.1.at.Keys == free.at.Keys
  {
    var b := EditCon(params, free).value.1;
    assert b.Valid();
  }

  /** The part of params2vals after editcon: fixcon, then bndcon, then the
      start point's in-play elements in key order. */
  function FromBounds(p: Params, b: Bounds, mask: Dict<MaskArray>): (r: Result<Prepared>)
    requires Consistent(p, b) && MaskOk(b, mask)
    ensures r.Err? <==> MaskBounds(b, mask).Err?
    ensures r.Err? ==> r == Err(MaskBounds(b, mask).error)
    ensures r.Ok? ==>
              && r.value.bounds.keys == b.keys
              && r.value.start.Keys == b.at.Keys
              && Consistent(r.value.start, r.value.bounds)
              && |r.value.vals| == TotalFree(r.value.bounds)
    ensures r.Ok? ==>
              && r.value.bounds == Masked(b, mask)
              && Consistent(p, r.value.bounds)
              && r.value.start == BndCon(p, r.value.bounds)
              && r.value.vals == Pack(r.value.start, r.value.bounds)
  {
    match MaskBounds(b, mask)
    case Err(e) => Err(e)
    case Ok(mb) =>
      MaskedConsistent(p, b, mask);
      var start := BndCon(p, mb);
      BndConConsistent(p, mb);
      ConsistentMatched(start, mb);
      Ok(Prepared(Pack(start, mb), start, mb))
  }

  /** params2vals as a value: editcon, then the rest. */
  function Prepare(params: map<string, Value>, free: Dict<FreeSpec>, mask: Dict<MaskArray>): (r: Result<Prepared>)
    requires PrepareOk(params, free, mask)
    ensures r.Err? <==> EditCon(params, free).Err? || MaskBounds(EditCon(params, free).value.1, mask).Err?
    ensures EditCon(params, free).Err? ==> r == Err(EditCon(params, free).error)
    ensures EditCon(params, free).Ok? && MaskBounds(EditCon(params, free).value.1, mask).Err? ==>
              r == Err(MaskBounds(EditCon(params, free).value.1, mask).error)
    ensures r.Ok? ==>
              && r.value.bounds.keys == free.keys
              && r.value.start.Keys == free.at.Keys
              && Consistent(r.value.start, r.value.bounds)
              && |r.value.vals| == TotalFree(r.value.bounds)
    ensures r.Ok? ==>
              && r.value.bounds == Masked(EditCon(params, free).value.1, mask)
              && Consistent(Normalize(params), r.value.bounds)
              && r.value.start == BndCon(Normalize(params), r.value.bounds)
              && r.value.vals == Pack(r.value.start, r.value.bounds)
  {
    match EditCon(params, free)
    case Err(e) => Err(e)
    case Ok((p, b)) =>
      EditConKeys(params, free);
      FromBounds(p, b, mask)
  }

  /** params2vals: the bounds are materialised as arrays that fixcon masks in
      place, and the result is read back from them. */
  method ParamsToVals(params: map<string, Value>, free: Dict<FreeSpec>, mask: Dict<MaskArray>)
    returns (r: Result<Prepared>)
    requires PrepareOk(params, free, mask)
    ensures r == Prepare(params, free, mask)
  {
    var edited := EditCon(params, free);
    if edited.Err? {
      return Err(edited.error);
    }
    var (p, b) := edited.value;
    EditConKeys(params, free);
    var table := new BoundsTable(b);
    var fixed := table.FixCon(mask);
    if fixed.Err? {
      return Err(fixed.error);
    }
    var mb := fixed.value;
    MaskedConsistent(p, b, mask);
    var start := BndCon(p, mb);
    r := Ok(Prepared(Pack(start, mb), start, mb));
  }

  /** The start vector unpacks to the start point: vals2params undoes
      params2vals's packing. */
  lemma PrepareRoundTrip(params: map<string, Value>, free: Dict<FreeSpec>, mask: Dict<MaskArray>)
    requires PrepareOk(params, free, mask) && Prepare(params, free, mask).Ok?
    ensures var q := Prepare(params, free, mask).value;
            Matched(q.start, q.bounds) && Unpack(q.vals, q.start, q.bounds) == q.start
  {
    var q := Prepare(params, free, mask).value;
    ConsistentMatched(q.start, q.bounds);
    UnpackPack(q.start, q.bounds);
  }

  /** A masked element gets NaN as both bounds, and an element whose lower
      bound is NaN starts at the given value. */
  lemma FromBoundsFixed(p: Params, b: Bounds, mask: Dict<MaskArray>, k: string, i: int)
    requires Consistent(p, b) && MaskOk(b, mask) && FromBounds(p, b, mask).Ok?
    requires k in b.at && 0 <= i < |p[k].data|
    ensures var q := FromBounds(p, b, mask).value;
            && k in q.bounds.at && k in q.start && |q.start[k].data| == |p[k].data|
            && (k in mask.at && i < |mask.at[k].bits| && mask.at[k].bits[i] ==>
                  q.bounds.at[k].lo.data[i].NaN? && q.bounds.at[k].hi.data[i].NaN?)
            && (q.bounds.at[k].lo.data[i].NaN? ==> q.start[k].data[i] == p[k].data[i])
  {
    MaskedConsistent(p, b, mask);
    var mb := Masked(b, mask);
    MaskedElements(b, mask, k, i);
    BndConElements(p, mb, k, i);
  }

  /** Every element that is not in play (a masked element, or one whose
      lower bound is NaN) starts at the caller's value, and a masked element
      has NaN as both bounds. */
  lemma PrepareFixed(params: map<string, Value>, free: Dict<FreeSpec>, mask: Dict<MaskArray>, k: string, i: int)
    requires PrepareOk(params, free, mask) && Prepare(params, free, mask).Ok?
    requires k in free.at && 0 <= i < |Normalize(params)[k].data|
    ensures var q := Prepare(params, free, mask).value;
            && k in q.bounds.at && k in q.start && |q.start[k].data| == |Normalize(params)[k].data|
            && (k in mask.at && i < |mask.at[k].bits| && mask.at[k].bits[i] ==>
                  q.bounds.at[k].lo.data[i].NaN? && q.bounds.at[k].hi.data[i].NaN?)
            && (q.bounds.at[k].lo.data[i].NaN? ==> q.start[k].data[i] == Normalize(params)[k].data[i])
  {
    EditConKeys(params, free);
    var p, b := EditCon(params, free).value.0, EditCon(params, free).value.1;
    FromBoundsFixed(p, b, mask, k, i);
  }

  /** Element by element, params2vals's outputs for free key k: the bounds
      are the resolved pair with NaN at every masked position, the start
      point is bndcon's rule applied to the given value and those bounds,
      and the vector is the start point's elements in play. */
  lemma PrepareAt(params: map<string, Value>, free: Dict<FreeSpec>, mask: Dict<MaskArray>, k: string, i: int)
    requires PrepareOk(params, free, mask) && Prepare(params, free, mask).Ok?
    requires k in free.at && 0 <= i < |Normalize(params)[k].data|
    ensures Entry(free.at[k], params[k]).Some? && Entry(free.at[k], params[k]).value.shape == [2] + ShapeOf(params[k])
    ensures var q := Prepare(params, free, mask).value;
            var pair := Resolve(free.at[k], params[k]);
            var bit := k in mask.at && i < |mask.at[k].bits| && mask.at[k].bits[i];
            && k in q.bounds.at && k in q.start
            && |pair.lo.data| == |pair.hi.data| == |Normalize(params)[k].data|
            && |q.bounds.at[k].lo.data| == |q.bounds.at[k].hi.data| == |q.start[k].data| == |Normalize(params)[k].data|
            && q.bounds.at[k].lo.data[i] == (if bit then NaN else pair.lo.data[i])
            && q.bounds.at[k].hi.data[i] == (if bit then NaN else pair.hi.data[i])
            && q.start[k].data[i] == ClampElem(Normalize(params)[k].data[i], q.bounds.at[k].lo.data[i], q.bounds.at[k].hi.data[i])
            && q.vals == Pack(q.start, q.bounds)
  {
    EditConKeys(params, free);
    var p, b := EditCon(params, free).value.0, EditCon(params, free).value.1;
    assert b.at[k] == Resolve(free.at[k], params[k]);
    MaskedElements(b, mask, k, i);
    BndConElements(p, Masked(b, mask), k, i);
  }

  /** The objective handed to the minimiser: fitFunction with the start
      point and the masked bounds bound in. */
  function Goal(model: Model, q: Prepared): (f: seq<Ext> --> Ext)
    requires Matched(q.start, q.bounds)
    ensures forall v :: TotalFree(q.bounds) <= |v| ==> f.requires(v) && f(v) == FitFunction(v, model, q.start, q.bounds)
  {
    v requires Matched(q.start, q.bounds) && TotalFree(q.bounds) <= |v| => FitFunction(v, model, q.start, q.bounds)
  }

  /** The model is only ever called with the free parameters: bndcon has
      dropped every other key from the start point, and unpacking keeps the
      start point's keys. */
  lemma GoalArguments(params: map<string, Value>, free: Dict<FreeSpec>, mask: Dict<MaskArray>, v: seq<Ext>)
    requires PrepareOk(params, free, mask) && Prepare(params, free, mask).Ok?
    requires TotalFree(Prepare(params, free, mask).value.bounds) <= |v|
    ensures var q := Prepare(params, free, mask).value;
            Matched(q.start, q.bounds) && Unpack(v, q.start, q.bounds).Keys == free.at.Keys
  {
    var q := Prepare(params, free, mask).value;
    ConsistentMatched(q.start, q.bounds);
  }

  /** fitcon as a value: prepare, minimise from the start vector, unpack the
      best vector; the result is the fitted parameters (free keys only) and
      the objective's value at them. With no model there is nothing to
      evaluate, which surfaces once preparation has succeeded. */
  function FitResult(func: Option<Model>, params: map<string, Value>, free: Dict<FreeSpec>, mask: Dict<MaskArray>,
                  fmin: Minimizer): (r: Result<(Params, Ext)>)
    requires PrepareOk(params, free, mask) && KeepsLength(fmin)
    ensures r.Ok? ==> func.Some? && Prepare(params, free, mask).Ok? && r.value.0.Keys == free.at.Keys
    ensures r.Err? && r.error != NoModel ==> Prepare(params, free, mask).Err?
    ensures Prepare(params, free, mask).Err? ==> r == Err(Prepare(params, free, mask).error)
    ensures Prepare(params, free, mask).Ok? && func.None? ==> r == Err(NoModel)
    ensures Prepare(params, free, mask).Ok? && func.Some? ==> r.Ok?
    ensures r.Ok? ==>
              var q := Prepare(params, free, mask).value;
              Matched(q.start, q.bounds) && r.value.1 == fmin(Goal(func.value, q), q.vals).1
    ensures r.Ok? ==>
              var q := Prepare(params, free, mask).value;
              var out := fmin(Goal(func.value, q), q.vals);
              && Matched(q.start, q.bounds)
              && TotalFree(q.bounds) <= |out.0|
              && r.value.0 == Unpack(out.0, q.start, q.bounds)
  {
    match Prepare(params, free, mask)
    case Err(e) => Err(e)
    case Ok(q) =>
      if func.None? then Err(NoModel)
      else
        ConsistentMatched(q.start, q.bounds);
        var out := fmin(Goal(func.value, q), q.vals);
        Ok((Unpack(out.0, q.start, q.bounds), out.1))
  }

  /** fitcon: the same steps, with the bounds masked in place. */
  method FitCon(func: Option<Model>, params: map<string, Value>, free: Dict<FreeSpec>, mask: Dict<MaskArray>,
                fmin: Minimizer)
    returns (r: Result<(Params, Ext)>)
    requires PrepareOk(params, free, mask) && KeepsLength(fmin)
    ensures r == FitResult(func, params, free, mask, fmin)
  {
    var prepared := ParamsToVals(params, free, mask);
    if prepared.Err? {
      return Err(prepared.error);
    }
    var q := prepared.value;
    if func.None? {
      return Err(NoModel);
    }
    ConsistentMatched(q.start, q.bounds);
    var out := fmin(Goal(func.value, q), q.vals);
    r := Ok((Unpack(out.0, q.start, q.bounds), out.1));
  }

  /** The fitted parameters pack back to exactly the minimiser's best vector:
      every in-play element comes from the search. */
  lemma FitPacks(func: Option<Model>, params: map<string, Value>, free: Dict<FreeSpec>, mask: Dict<MaskArray>,
                    fmin: Minimizer)
    requires PrepareOk(params, free, mask) && KeepsLength(fmin)
    requires FitResult(func, params, free, mask, fmin).Ok?
    ensures var q := Prepare(params, free, mask).value;
            Matched(q.start, q.bounds) &&
            Pack(FitResult(func, params, free, mask, fmin).value.0, q.bounds) == fmin(Goal(func.value, q), q.vals).0
  {
    var q := Prepare(params, free, mask).value;
    ConsistentMatched(q.start, q.bounds);
    var out := fmin(Goal(func.value, q), q.vals);
    PackUnpack(out.0, q.start, q.bounds);
  }

  /** A fixed element keeps the caller's value through the whole fit: the
      optimiser never sees it. */
  lemma FitKeepsFixed(func: Option<Model>, params: map<string, Value>, free: Dict<FreeSpec>, mask: Dict<MaskArray>,
                    fmin: Minimizer, k: string, i: int)
    requires PrepareOk(params, free, mask) && KeepsLength(fmin)
    requires FitResult(func, params, free, mask, fmin).Ok?
    requires k in mask.at && 0 <= i < |Normalize(params)[k].data| && i < |mask.at[k].bits| && mask.at[k].bits[i]
    ensures k in FitResult(func, params, free, mask, fmin).value.0
    ensures |FitResult(func, params, free, mask, fmin).value.0[k].data| == |Normalize(params)[k].data|
    ensures FitResult(func, params, free, mask, fmin).value.0[k].data[i] == Normalize(params)[k].data[i]
  {
    var q := Prepare(params, free, mask).value;
    PrepareFixed(params, free, mask, k, i);
    ConsistentMatched(q.start, q.bounds);
    var out := fmin(Goal(func.value, q), q.vals);
    UnpackAt(out.0, q.start, q.bounds, k, i);
  }

  /** The fit object: a model and the three argument dictionaries, kept for
      fits that leave an argument empty. */
  class Fitter {
    const func: Option<Model>
    const params: map<string, Value>
    const free: Dict<FreeSpec>
    const mask: Dict<MaskArray>

    /** Stores the four arguments as given; each defaults to empty. */
    constructor (func: Option<Model>, params: map<string, Value>, free: Dict<FreeSpec>, mask: Dict<MaskArray>)
      ensures this.func == func && this.params == params && this.free == free && this.mask == mask
    {
      this.func := func;
      this.params := params;
      this.free := free;
      this.mask := mask;
    }

    /** The model a fit uses: the argument, or the stored one when it is absent. */
    function FuncArg(f: Option<Model>): (r: Option<Model>)
      ensures r.Some? <==> f.Some? || func.Some?
      ensures f.Some? ==> r == f
      ensures f.None? ==> r == func
    {
      if f.None? then func else f
    }

    /** The parameters a fit uses: the argument, or the stored ones when it is empty. */
    function ParamsArg(p: map<string, Value>): (r: map<string, Value>)
      ensures p != map[] ==> r == p
      ensures p == map[] ==> r == params
    {
      if p == map[] then params else p
    }

    /** The free specification a fit uses: the argument, or the stored one when it is empty. */
    function FreeArg(f: Dict<FreeSpec>): (r: Dict<FreeSpec>)
      ensures !f.IsEmpty() ==> r == f
      ensures f.IsEmpty() ==> r == free
    {
      if f.IsEmpty() then free else f
    }

    /** The mask a fit uses: the argument, or the stored one when it is empty. */
    function MaskArg(m: Dict<MaskArray>): (r: Dict<MaskArray>)
      ensures !m.IsEmpty() ==> r == m
      ensures m.IsEmpty() ==> r == mask
    {
      if m.IsEmpty() then mask else m
    }

    /** fit: fitcon on the arguments, each empty one replaced by the stored value. */
    method Fit(f: Option<Model>, p: map<string, Value>, fr: Dict<FreeSpec>, m: Dict<MaskArray>, fmin: Minimizer)
      returns (r: Result<(Params, Ext)>)
      requires PrepareOk(ParamsArg(p), FreeArg(fr), MaskArg(m)) && KeepsLength(fmin)
      ensures r == FitResult(FuncArg(f), ParamsArg(p), FreeArg(fr), MaskArg(m), fmin)
    {
      r := FitCon(FuncArg(f), ParamsArg(p), FreeArg(fr), MaskArg(m), fmin);
    }
  }
}
