/**
 * Insertion-ordered dictionaries keyed by parameter name, and the
 * order-preserving key filters used to build error lists.
 */
module Dicts {
  import opened Outcomes

  /** A dictionary whose key order is its insertion order. */
  datatype Dict<V> = Dict(keys: seq<string>, at: map<string, V>)
  {
    /** Keys are distinct and are exactly the keys of the map. */
    predicate Valid()
    {
      && Distinct(keys)
      && (forall k :: k in at ==> k in keys)
      && (forall k :: k in keys ==> k in at)
    }

    /** An empty dictionary is false in a truth test. */
    predicate IsEmpty()
    {
      |keys| == 0
    }
  }

  /** Distinct keys: each occurs at one position only. */
  predicate Distinct(keys: seq<string>)
  {
    forall i, j :: 0 <= i < j < |keys| ==> keys[i] != keys[j]
  }

  /** The keys that are in `chosen`, in the order of `keys`. */
  function Filter(keys: seq<string>, chosen: set<string>): (r: seq<string>)
    ensures forall k :: k in r <==> k in keys && k in chosen
    ensures r == [] <==> forall k :: k in keys ==> k !in chosen
    ensures |r| <= |keys|
  {
    if keys == [] then []
    else if keys[0] in chosen then [keys[0]] + Filter(keys[1..], chosen)
    else Filter(keys[1..], chosen)
  }

  /** Key a occurs in keys before key c. */
  predicate Before(keys: seq<string>, a: string, c: string)
  {
    exists p, q :: 0 <= p < q < |keys| && keys[p] == a && keys[q] == c
  }

  /** The keys of r occur in keys in the same relative order. */
  predicate InOrder(r: seq<string>, keys: seq<string>)
  {
    forall i, j :: 0 <= i < j < |r| ==> Before(keys, r[i], r[j])
  }

  /** Filter keeps dictionary order. */
  lemma {:induction false} FilterOrder(keys: seq<string>, chosen: set<string>)
    ensures InOrder(Filter(keys, chosen), keys)
  {
    if keys != [] {
      FilterOrder(keys[1..], chosen);
      InOrderTail(keys, Filter(keys[1..], chosen), Filter(keys, chosen));
    }
  }

  /** Keys in the order of a key list's tail, possibly headed by its first
      key, are in the order of the whole list. */
  lemma InOrderTail(keys: seq<string>, ft: seq<string>, f: seq<string>)
    requires keys != [] && InOrder(ft, keys[1..]) && (forall x :: x in ft ==> x in keys[1..])
    requires f == [keys[0]] + ft || f == ft
    ensures InOrder(f, keys)
  {
    var t := keys[1..];
    forall i, j | 0 <= i < j < |f|
      ensures Before(keys, f[i], f[j])
    {
      if f == [keys[0]] + ft && i == 0 {
        assert ft[j - 1] in ft;
        var q :| 0 <= q < |t| && t[q] == ft[j - 1];
        assert keys[0] == f[i] && keys[q + 1] == f[j];
      } else if f == [keys[0]] + ft {
        assert Before(t, ft[i - 1], ft[j - 1]);
        var p, q :| 0 <= p < q < |t| && t[p] == ft[i - 1] && t[q] == ft[j - 1];
        assert keys[p + 1] == f[i] && keys[q + 1] == f[j];
      } else {
        assert Before(t, ft[i], ft[j]);
        var p, q :| 0 <= p < q < |t| && t[p] == ft[i] && t[q] == ft[j];
        assert keys[p + 1] == f[i] && keys[q + 1] == f[j];
      }
    }
  }

  /** Filter lists no key twice when the keys are distinct. */
  lemma {:induction false} FilterDistinct(keys: seq<string>, chosen: set<string>)
    requires Distinct(keys)
    ensures Distinct(Filter(keys, chosen))
  {
    if keys != [] {
      var t, f := keys[1..], Filter(keys, chosen);
      var ft := Filter(t, chosen);
      FilterDistinct(t, chosen);
      if keys[0] in chosen {
        assert f == [keys[0]] + ft;
        assert keys[0] !in t;
        assert keys[0] !in ft;
      } else {
        assert f == ft;
      }
    }
  }

  /** The position of the first key that is in `chosen`, or |keys| if none is. */
  function FirstIn(keys: seq<string>, chosen: set<string>): (i: nat)
    ensures i <= |keys|
    ensures i < |keys| ==> keys[i] in chosen
    ensures forall j :: 0 <= j < i ==> keys[j] !in chosen
    ensures i == |keys| <==> forall k :: k in keys ==> k !in chosen
  {
    if keys == [] then 0
    else if keys[0] in chosen then 0
    else 1 + FirstIn(keys[1..], chosen)
  }
}
