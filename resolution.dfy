/**
 * Bounds resolution (`editcon`): turns the free specification into a lower
 * and an upper bound array per free parameter, shaped like the parameter,
 * and converts every parameter value to an array.
 */
module Resolution {
  import opened ExtReal
  import opened Outcomes
  import opened Dicts
  import opened NdArrays

  /** What the free specification says of one parameter: the sentinel for
      "free, no bounds", or a bounds array ([lower, upper], possibly tiled). */
  datatype FreeSpec = Unconstrained | Given(bounds: NdArray)

  /** The lower and upper bound arrays of one free parameter. */
  datatype BoundPair = BoundPair(lo: NdArray, hi: NdArray)

  /** Parameter values after conversion to arrays. */
  type Params = map<string, NdArray>

  /** Bound pairs per free parameter, in free-specification order. */
  type Bounds = Dict<BoundPair>

  /** What the caller must supply: every free key names a parameter (a
      missing one is a KeyError), and every array is well formed. */
  predicate InputsOk(params: map<string, Value>, free: Dict<FreeSpec>)
  {
    && free.Valid()
    && (forall k :: k in params ==> ValueWellShaped(params[k]))
    && (forall k :: k in free.at ==> k in params)
    && (forall k :: k in free.at && free.at[k].Given? ==> WellShaped(free.at[k].bounds))
  }

  /** Bounds whose pairs are shaped exactly like their (array) parameters. */
  predicate Consistent(params: Params, b: Bounds)
  {
    && b.Valid()
    && forall k :: k in b.at ==>
         && k in params
         && WellShaped(params[k])
         && b.at[k].lo.shape == params[k].shape && WellShaped(b.at[k].lo)
         && b.at[k].hi.shape == params[k].shape && WellShaped(b.at[k].hi)
  }

  /** Every parameter value converted to an array with its shape unchanged. */
  function Normalize(params: map<string, Value>): (r: Params)
    requires forall k :: k in params ==> ValueWellShaped(params[k])
    ensures r.Keys == params.Keys
    ensures forall k :: k in r ==> WellShaped(r[k]) && r[k].shape == ShapeOf(params[k])
    ensures forall k :: k in r && params[k].Array? ==> r[k] == params[k].arr
    ensures forall k :: k in r && params[k].Scalar? ==> r[k].data == [params[k].x]
  {
    map k | k in params :: AsArray(params[k])
  }

  /** The bounds entry before validation, as an array whose first axis should
      hold [lower, upper]; None when a scalar parameter's spec cannot be
      indexed at 0 and 1. */
  function Entry(spec: FreeSpec, v: Value): (e: Option<NdArray>)
    requires ValueWellShaped(v)
    requires spec.Given? ==> WellShaped(spec.bounds)
    ensures e.Some? ==> WellShaped(e.value)
    ensures spec.Unconstrained? || (spec.Given? && v.Array? && spec.bounds.shape == [2]) ==>
              e.Some? && e.value.shape == [2] + ShapeOf(v)
    ensures spec.Given? && v.Array? && spec.bounds.shape != [2] ==> e == Some(spec.bounds)
    ensures e.None? <==> spec.Given? && v.Scalar? && (|spec.bounds.shape| == 0 || spec.bounds.shape[0] < 2)
    ensures spec.Given? && v.Scalar? && e.Some? ==> e.value.shape == [2] + spec.bounds.shape[1..]
  {
    match spec
    case Unconstrained =>
      var n := Product(ShapeOf(v));
      ProductCons(2, ShapeOf(v));
      Some(NdArray([2] + ShapeOf(v), Repeat(NegInf, n) + Repeat(PosInf, n)))
    case Given(b) =>
      if v.Scalar? then
        if |b.shape| == 0 || b.shape[0] < 2 then None
        else
          var rows := b.shape[1..];
          var r := Product(rows);
          assert b.shape == [b.shape[0]] + rows;
          ProductCons(b.shape[0], rows);
          ProductCons(2, rows);
          assert 2 * r <= b.shape[0] * r;
          Some(NdArray([2] + rows, b.data[..2 * r]))
      else if b.shape == [2] then
        var n := Product(v.arr.shape);
        ProductCons(2, v.arr.shape);
        ProductCons(2, []);
        assert [2] + [] == b.shape;
        Some(NdArray([2] + v.arr.shape, Repeat(b.data[0], n) + Repeat(b.data[1], n)))
      else Some(b)
  }

  /** The specs editcon accepts for a parameter: the sentinel always; for a
      scalar, a spec of at least two elements along a single axis; for an
      array, a two-element spec (tiled) or one already shaped (2,) + shape. */
  predicate Accepted(spec: FreeSpec, v: Value)
  {
    match spec
    case Unconstrained => true
    case Given(b) =>
      if v.Scalar? then |b.shape| == 1 && b.shape[0] >= 2
      else b.shape == [2] || b.shape == [2] + ShapeOf(v)
  }

  /** The free keys whose scalar parameter has a spec that cannot be indexed. */
  function IndexFailures(params: map<string, Value>, free: Dict<FreeSpec>): set<string>
    requires InputsOk(params, free)
  {
    set k | k in free.at && Entry(free.at[k], params[k]).None?
  }

  /** The free keys whose bounds entry is not shaped (2,) + the parameter's shape. */
  function ShapeFailures(params: map<string, Value>, free: Dict<FreeSpec>): set<string>
    requires InputsOk(params, free)
  {
    set k | k in free.at && Entry(free.at[k], params[k]).Some?
                         && Entry(free.at[k], params[k]).value.shape != [2] + ShapeOf(params[k])
  }

  /** The lower and upper bound held in the flat data of a (2,) + shape
      array: its two rows. */
  function Halves(shape: seq<nat>, s: seq<Ext>): (p: BoundPair)
    requires |s| == 2 * Product(shape)
    ensures p.lo.shape == shape && WellShaped(p.lo) && p.hi.shape == shape && WellShaped(p.hi)
    ensures p.lo.data + p.hi.data == s
  {
    var n := Product(shape);
    BoundPair(NdArray(shape, s[..n]), NdArray(shape, s[n..]))
  }

  /** The bound pair of a free key whose entry passed validation. */
  function Resolve(spec: FreeSpec, v: Value): (p: BoundPair)
    requires ValueWellShaped(v) && (spec.Given? ==> WellShaped(spec.bounds))
    requires Entry(spec, v).Some? && Entry(spec, v).value.shape == [2] + ShapeOf(v)
    ensures p.lo.shape == ShapeOf(v) && WellShaped(p.lo)
    ensures p.hi.shape == ShapeOf(v) && WellShaped(p.hi)
  {
    ProductCons(2, ShapeOf(v));
    Halves(ShapeOf(v), Entry(spec, v).value.data)
  }

  /** editcon: resolve the free specification into bounds, or report the
      first unindexable scalar spec, or every key whose bounds are misshapen. */
  function EditCon(params: map<string, Value>, free: Dict<FreeSpec>): (r: Result<(Params, Bounds)>)
    requires InputsOk(params, free)
    ensures r.Ok? <==> forall k :: k in free.at ==>
                         && Entry(free.at[k], params[k]).Some?
                         && Entry(free.at[k], params[k]).value.shape == [2] + ShapeOf(params[k])
    ensures r.Ok? ==> r.value.0 == Normalize(params) && r.value.1.keys == free.keys
    ensures r.Ok? ==> Consistent(r.value.0, r.value.1)
    ensures r.Ok? ==> forall k :: k in free.at ==> r.value.1.at[k] == Resolve(free.at[k], params[k])
    ensures r.Err? && r.error.BoundIndex? ==>
              exists i :: 0 <= i < |free.keys| && free.keys[i] == r.error.key
                          && Entry(free.at[free.keys[i]], params[free.keys[i]]).None?
                          && forall j :: 0 <= j < i ==> Entry(free.at[free.keys[j]], params[free.keys[j]]).Some?
    ensures r.Err? && !r.error.BoundIndex? ==>
              && (forall k :: k in free.at ==> Entry(free.at[k], params[k]).Some?)
              && r.error.BoundsShape?
              && r.error.keys != []
              && forall k :: k in r.error.keys <==>
                   k in free.at && Entry(free.at[k], params[k]).value.shape != [2] + ShapeOf(params[k])
  {
    var i := FirstIn(free.keys, IndexFailures(params, free));
    if i < |free.keys| then Err(BoundIndex(free.keys[i]))
    else
      var bad := Filter(free.keys, ShapeFailures(params, free));
      if bad != [] then Err(BoundsShape(bad))
      else
        var converted := Normalize(params);
        var pairs := map k | k in free.at :: Resolve(free.at[k], params[k]);
        Ok((converted, Dict(free.keys, pairs)))
  }

  /** editcon succeeds exactly when every free key's spec is one it accepts:
      neither error is raised for any other input. */
  lemma EditConAccepts(params: map<string, Value>, free: Dict<FreeSpec>)
    requires InputsOk(params, free)
    ensures EditCon(params, free).Ok? <==> forall k :: k in free.at ==> Accepted(free.at[k], params[k])
  {
    forall k | k in free.at
      ensures Accepted(free.at[k], params[k]) <==>
                Entry(free.at[k], params[k]).Some? && Entry(free.at[k], params[k]).value.shape == [2] + ShapeOf(params[k])
    {
      EntryAccepted(free.at[k], params[k]);
    }
  }

  /** A spec is accepted exactly when its entry exists and is shaped
      (2,) + the parameter's shape. */
  lemma EntryAccepted(spec: FreeSpec, v: Value)
    requires ValueWellShaped(v) && (spec.Given? ==> WellShaped(spec.bounds))
    ensures Accepted(spec, v) <==> Entry(spec, v).Some? && Entry(spec, v).value.shape == [2] + ShapeOf(v)
  {
    if spec.Given? && v.Scalar? && Entry(spec, v).Some? {
      var s := spec.bounds.shape;
      assert [2] + s[1..] == [2] <==> |s| == 1;
    }
  }

  /** editcon's shape error lists the misshapen keys in free-specification
      order, each once. */
  lemma EditConOrder(params: map<string, Value>, free: Dict<FreeSpec>)
    requires InputsOk(params, free)
    ensures var r := EditCon(params, free);
            r.Err? && r.error.BoundsShape? ==>
              && InOrder(r.error.keys, free.keys)
              && Distinct(r.error.keys)
  {
    FilterOrder(free.keys, ShapeFailures(params, free));
    FilterDistinct(free.keys, ShapeFailures(params, free));
  }

  /** What resolution gives one free key, branch by branch: the sentinel
      gives (-inf, +inf) everywhere, a scalar takes its pair, an array with a
      two-element spec gets each bound tiled to its shape, and any other spec
      is used as it is. */
  lemma ResolvedPair(spec: FreeSpec, v: Value)
    requires ValueWellShaped(v) && (spec.Given? ==> WellShaped(spec.bounds))
    requires Entry(spec, v).Some? && Entry(spec, v).value.shape == [2] + ShapeOf(v)
    ensures var p := Resolve(spec, v);
            var n := Product(ShapeOf(v));
            && (spec.Unconstrained? ==> p.lo.data == Repeat(NegInf, n) && p.hi.data == Repeat(PosInf, n))
            && (spec.Given? && v.Scalar? ==>
                  && |spec.bounds.shape| == 1 && spec.bounds.shape[0] >= 2
                  && p.lo.data == [spec.bounds.data[0]] && p.hi.data == [spec.bounds.data[1]])
            && (spec.Given? && v.Array? && spec.bounds.shape == [2] ==>
                  |spec.bounds.data| == 2 && p.lo.data == Repeat(spec.bounds.data[0], n) && p.hi.data == Repeat(spec.bounds.data[1], n))
            && (spec.Given? && v.Array? && spec.bounds.shape != [2] ==>
                  spec.bounds.shape == [2] + ShapeOf(v) && p.lo.data + p.hi.data == spec.bounds.data)
  {
    var e := Entry(spec, v).value;
    var n := Product(ShapeOf(v));
    ProductCons(2, ShapeOf(v));
    if spec.Given? && v.Array? && spec.bounds.shape == [2] {
      ProductCons(2, []);
      assert spec.bounds.shape == [2] + [];
      assert e.data[..n] + e.data[n..] == e.data;
    } else if spec.Unconstrained? {
      assert e.data[..n] + e.data[n..] == e.data;
    } else if spec.Given? && v.Scalar? {
      var b := spec.bounds;
      assert [2] + b.shape[1..] == [2] + [];
      assert b.shape == [b.shape[0]] + b.shape[1..];
    }
  }
}
