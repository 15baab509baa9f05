/**
 * Python's `dict` with string keys: the values by key, and the keys in
 * first-insertion order, which is the order a `for` loop over the dict
 * visits them.
 */
module PyDict {

  predicate Distinct<T(==)>(s: seq<T>)
  {
    forall i, j :: 0 <= i < j < |s| ==> s[i] != s[j]
  }

  datatype Dict<V> = Dict(keys: seq<string>, values: map<string, V>)
  {
    /** Each key is listed once, and the listed keys are the keys of `values`. */
    ghost predicate Valid()
    {
      Distinct(keys) && forall k :: k in values <==> k in keys
    }
  }

  /** `{}` */
  function Empty<V>(): (d: Dict<V>)
    ensures d.Valid() && d.values == map[]
  {
    Dict([], map[])
  }

  /** `d[k] = v`: an existing key keeps its place, a new key goes last. */
  function Put<V>(d: Dict<V>, k: string, v: V): Dict<V>
  {
    Dict(if k in d.values then d.keys else d.keys + [k], d.values[k := v])
  }

  lemma {:induction false} PutKeepsValid<V>(d: Dict<V>, k: string, v: V)
    requires d.Valid()
    ensures Put(d, k, v).Valid()
  {
  }

  /** `s.index(x)`: the first position of `x`. */
  function IndexOf(s: seq<string>, x: string): (r: nat)
    requires x in s
    ensures r < |s| && s[r] == x
    ensures forall i :: 0 <= i < r ==> s[i] != x
  {
    if s[0] == x then 0 else 1 + IndexOf(s[1..], x)
  }
}
