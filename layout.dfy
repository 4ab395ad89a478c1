/**
 * Per-key parts laid end to end in key order, as one flat vector: the
 * offsets, lengths and slices of the layout, independent of what the
 * elements are.
 */
module Layout {

  /** The part of key k, empty when k has none. */
  function Part<T>(parts: map<string, seq<T>>, k: string): seq<T>
  {
    if k in parts then parts[k] else []
  }

  /** The width of key k, zero when k has none. */
  function Count(n: map<string, nat>, k: string): nat
  {
    if k in n then n[k] else 0
  }

  /** The parts of the listed keys, concatenated in key order. */
  function Concat<T>(ks: seq<string>, parts: map<string, seq<T>>): seq<T>
  {
    if ks == [] then [] else Concat(ks[..|ks| - 1], parts) + Part(parts, ks[|ks| - 1])
  }

  /** The summed widths of the listed keys. */
  function Width(ks: seq<string>, n: map<string, nat>): nat
  {
    if ks == [] then 0 else Width(ks[..|ks| - 1], n) + Count(n, ks[|ks| - 1])
  }

  /** Every listed key's part has its width. */
  predicate Fitted<T>(ks: seq<string>, parts: map<string, seq<T>>, n: map<string, nat>)
  {
    forall i :: 0 <= i < |ks| ==> |Part(parts, ks[i])| == Count(n, ks[i])
  }

  lemma FittedPrefix<T>(ks: seq<string>, parts: map<string, seq<T>>, n: map<string, nat>, j: int)
    requires Fitted(ks, parts, n) && 0 <= j <= |ks|
    ensures Fitted(ks[..j], parts, n)
  {
    forall i | 0 <= i < j ensures |Part(parts, ks[..j][i])| == Count(n, ks[..j][i]) {
      assert ks[..j][i] == ks[i];
    }
  }

  lemma ConcatLast<T>(ks: seq<string>, parts: map<string, seq<T>>, j: int)
    requires 0 <= j < |ks|
    ensures Concat(ks[..j + 1], parts) == Concat(ks[..j], parts) + Part(parts, ks[j])
  {
    assert ks[..j + 1][..j] == ks[..j];
  }

  lemma WidthLast(ks: seq<string>, n: map<string, nat>, j: int)
    requires 0 <= j < |ks|
    ensures Width(ks[..j + 1], n) == Width(ks[..j], n) + Count(n, ks[j])
  {
    assert ks[..j + 1][..j] == ks[..j];
  }

  /** Keys listed earlier are laid out earlier: a prefix of the keys gives a
      prefix of the vector. */
  lemma {:induction false} ConcatPrefix<T>(ks: seq<string>, parts: map<string, seq<T>>, j: int)
    requires 0 <= j <= |ks|
    ensures Concat(ks[..j], parts) <= Concat(ks, parts)
  {
    if j < |ks| {
      var m := |ks| - 1;
      assert ks[..m][..j] == ks[..j];
      ConcatPrefix(ks[..m], parts, j);
      PrefixAppend(Concat(ks[..j], parts), Concat(ks[..m], parts), Part(parts, ks[m]));
    } else {
      assert ks[..j] == ks;
    }
  }

  /** A prefix of the keys is no wider than all of them. */
  lemma {:induction false} WidthPrefix(ks: seq<string>, n: map<string, nat>, j: int)
    requires 0 <= j <= |ks|
    ensures Width(ks[..j], n) <= Width(ks, n)
  {
    if j < |ks| {
      var m := |ks| - 1;
      assert ks[..m][..j] == ks[..j];
      WidthPrefix(ks[..m], n, j);
    } else {
      assert ks[..j] == ks;
    }
  }

  lemma PrefixAppend<T>(a: seq<T>, b: seq<T>, x: seq<T>)
    requires a <= b
    ensures a <= b + x
  {
    assert (b + x)[..|b|] == b;
  }

  /** The concatenation is as wide as the listed keys together. */
  lemma {:induction false} ConcatLength<T>(ks: seq<string>, parts: map<string, seq<T>>, n: map<string, nat>)
    requires Fitted(ks, parts, n)
    ensures |Concat(ks, parts)| == Width(ks, n)
  {
    if ks != [] {
      FittedPrefix(ks, parts, n, |ks| - 1);
      ConcatLength(ks[..|ks| - 1], parts, n);
    }
  }

  lemma PrefixSlice<T>(a: seq<T>, b: seq<T>, lo: int, hi: int)
    requires a <= b && 0 <= lo <= hi <= |a|
    ensures b[lo..hi] == a[lo..hi]
  {
  }

  lemma SliceRight<T>(p: seq<T>, x: seq<T>)
    ensures (p + x)[|p|..|p| + |x|] == x
  {
  }

  /** The key at position j occupies its stretch of the concatenation, which
      starts where the keys before it end. */
  lemma ConcatSlice<T>(ks: seq<string>, parts: map<string, seq<T>>, n: map<string, nat>, j: int)
    requires Fitted(ks, parts, n) && 0 <= j < |ks|
    ensures Width(ks[..j + 1], n) == Width(ks[..j], n) + Count(n, ks[j])
    ensures Width(ks[..j + 1], n) <= Width(ks, n) == |Concat(ks, parts)|
    ensures Concat(ks, parts)[Width(ks[..j], n)..Width(ks[..j + 1], n)] == Part(parts, ks[j])
  {
    FittedPrefix(ks, parts, n, j);
    ConcatLength(ks[..j], parts, n);
    ConcatLength(ks, parts, n);
    WidthLast(ks, n, j);
    ConcatPrefix(ks, parts, j + 1);
    WidthPrefix(ks, n, j + 1);
    ConcatLast(ks, parts, j);
    var p, x := Concat(ks[..j], parts), Part(parts, ks[j]);
    assert |x| == Count(n, ks[j]);
    PrefixSlice(p + x, Concat(ks, parts), |p|, |p| + |x|);
    SliceRight(p, x);
  }

  /** Cutting the concatenation at key position j gives back that key's part. */
  lemma CutConcat<T>(ks: seq<string>, parts: map<string, seq<T>>, n: map<string, nat>, j: int)
    requires Fitted(ks, parts, n) && 0 <= j < |ks|
    ensures Cut(ks, n, Concat(ks, parts), j) == Part(parts, ks[j])
  {
    ConcatSlice(ks, parts, n, j);
  }

  /** Parts cut from one vector at the layout's offsets. */
  ghost predicate CutFrom<T>(ks: seq<string>, parts: map<string, seq<T>>, n: map<string, nat>, v: seq<T>)
  {
    forall j :: 0 <= j < |ks| ==> Cut(ks, n, v, j) == Part(parts, ks[j])
  }

  /** The stretch of v at key position j, empty when v is too short. */
  function Cut<T>(ks: seq<string>, n: map<string, nat>, v: seq<T>, j: int): seq<T>
    requires 0 <= j < |ks|
  {
    var lo, hi := Width(ks[..j], n), Width(ks[..j + 1], n);
    if lo <= hi <= |v| then v[lo..hi] else []
  }

  /** Element r of the stretch at key position j is element offset + r of v. */
  lemma CutAt<T>(ks: seq<string>, n: map<string, nat>, v: seq<T>, j: int, r: int)
    requires 0 <= j < |ks| && Width(ks, n) <= |v| && 0 <= r < Count(n, ks[j])
    ensures Width(ks[..j], n) + r < Width(ks, n)
    ensures |Cut(ks, n, v, j)| == Count(n, ks[j])
    ensures Cut(ks, n, v, j)[r] == v[Width(ks[..j], n) + r]
  {
    WidthLast(ks, n, j);
    WidthPrefix(ks, n, j + 1);
  }

  /** Parts cut from one vector at the layout's offsets concatenate back to
      the vector, up to the layout's width. */
  lemma {:induction false} ConcatOfCuts<T>(ks: seq<string>, parts: map<string, seq<T>>, n: map<string, nat>, v: seq<T>)
    requires Width(ks, n) <= |v| && CutFrom(ks, parts, n, v)
    ensures Concat(ks, parts) == v[..Width(ks, n)]
  {
    if ks != [] {
      var m := |ks| - 1;
      CutFromPrefix(ks, parts, n, v);
      WidthPrefix(ks, n, m);
      assert ks[..m] == ks[..|ks| - 1];
      ConcatOfCuts(ks[..m], parts, n, v);
      WidthLast(ks, n, m);
      assert ks[..m + 1] == ks;
      var w, w1 := Width(ks[..m], n), Width(ks, n);
      assert Cut(ks, n, v, m) == v[w..w1];
      SplitPrefix(v, w, w1);
    }
  }

  lemma SplitPrefix<T>(v: seq<T>, a: int, b: int)
    requires 0 <= a <= b <= |v|
    ensures v[..b] == v[..a] + v[a..b]
  {
  }

  lemma CutFromPrefix<T>(ks: seq<string>, parts: map<string, seq<T>>, n: map<string, nat>, v: seq<T>)
    requires CutFrom(ks, parts, n, v) && ks != []
    ensures CutFrom(ks[..|ks| - 1], parts, n, v)
  {
    var m := |ks| - 1;
    forall j | 0 <= j < m ensures Cut(ks[..m], n, v, j) == Part(parts, ks[..m][j]) {
      CutPrefix(ks, n, v, m, j);
      assert ks[..m][j] == ks[j];
    }
  }

  /** Cutting at a key position does not look past that key. */
  lemma CutPrefix<T>(ks: seq<string>, n: map<string, nat>, v: seq<T>, m: int, j: int)
    requires 0 <= j < m <= |ks|
    ensures Cut(ks[..m], n, v, j) == Cut(ks, n, v, j)
  {
    assert ks[..m][..j + 1] == ks[..j + 1];
    assert ks[..m][..j] == ks[..j];
  }
}
