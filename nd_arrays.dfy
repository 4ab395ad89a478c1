/**
 * N-dimensional arrays as a shape and their row-major flat data, and the
 * parameter values a caller may pass: plain scalars or arrays.
 */
module NdArrays {
  import opened ExtReal

  /** Number of elements of an array of the given shape. */
  function Product(shape: seq<nat>): nat
  {
    if shape == [] then 1 else shape[0] * Product(shape[1..])
  }

  lemma ProductCons(d: nat, shape: seq<nat>)
    ensures Product([d] + shape) == d * Product(shape)
  {
    assert ([d] + shape)[1..] == shape;
  }

  /** An array: its shape and its elements flattened in row-major order. */
  datatype NdArray = NdArray(shape: seq<nat>, data: seq<Ext>)

  predicate WellShaped(a: NdArray)
  {
    |a.data| == Product(a.shape)
  }

  /** n copies of x: the flat data of x tiled to a shape of n elements. */
  function Repeat(x: Ext, n: nat): (r: seq<Ext>)
    ensures |r| == n
    ensures forall i :: 0 <= i < n ==> r[i] == x
  {
    seq(n, _ => x)
  }

  /** A parameter value: a plain scalar, or an array (which may be 0-dimensional). */
  datatype Value = Scalar(x: Ext) | Array(arr: NdArray)

  predicate ValueWellShaped(v: Value)
  {
    v.Array? ==> WellShaped(v.arr)
  }

  /** The shape of a value; a plain scalar has the empty shape. */
  function ShapeOf(v: Value): seq<nat>
  {
    match v
    case Scalar(_) => []
    case Array(a) => a.shape
  }

  /** Conversion to an array: a scalar becomes a 0-dimensional array, an
      array is left as it is. */
  function AsArray(v: Value): (a: NdArray)
    requires ValueWellShaped(v)
    ensures WellShaped(a) && a.shape == ShapeOf(v)
    ensures v.Scalar? ==> a.data == [v.x]
    ensures v.Array? ==> a == v.arr
  {
    match v
    case Scalar(x) => NdArray([], [x])
    case Array(a) => a
  }
}
