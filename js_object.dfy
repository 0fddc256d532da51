/**
  Plain JavaScript objects used as dictionaries, as the calc-engine and
  amino-acid modules use them: entries in insertion order, the order in
  which ECMAScript 2015 lists the keys of an object without integer-like
  keys. Assigning to a present key changes its value in place; assigning to
  a new key appends it. ECMAScript 5, which the embedded engine implements,
  leaves the order of `Object.keys` and `for`-`in` to the engine.
 */
module JsObjects {
  import opened Wrappers

  type JsObject<V> = seq<(string, V)>

  /** `o[k]`: the value of the first entry with key `k`, or `undefined`. */
  function Get<V>(o: JsObject<V>, k: string): (r: Option<V>)
    ensures r.None? <==> forall i :: 0 <= i < |o| ==> o[i].0 != k
  {
    if o == [] then None
    else if o[0].0 == k then Some(o[0].1)
    else Get(o[1..], k)
  }

  /** `Object.keys(o)`. */
  function Keys<V>(o: JsObject<V>): (ks: seq<string>)
    ensures |ks| == |o| && forall i :: 0 <= i < |o| ==> ks[i] == o[i].0
  {
    if o == [] then [] else [o[0].0] + Keys(o[1..])
  }

  /** `o[k] = v`. */
  function Set<V>(o: JsObject<V>, k: string, v: V): (r: JsObject<V>)
    ensures Get(r, k) == Some(v)
    ensures forall k' :: k' != k ==> Get(r, k') == Get(o, k')
    ensures Get(o, k).None? ==> r == o + [(k, v)]
    ensures Get(o, k).Some? ==> Keys(r) == Keys(o)
  {
    if o == [] then [(k, v)]
    else if o[0].0 == k then [(k, v)] + o[1..]
    else
      var t := Set(o[1..], k, v);
      assert Keys([o[0]] + t) == [o[0].0] + Keys(t) by {
        assert ([o[0]] + t)[1..] == t;
      }
      GetCons(o[0], t);
      GetCons(o[0], o[1..]);
      assert [o[0]] + o[1..] == o;
      [o[0]] + t
  }

  /** Looking up a key in an object with one more entry in front. */
  lemma GetCons<V>(e: (string, V), t: JsObject<V>)
    ensures forall k :: Get([e] + t, k) == if e.0 == k then Some(e.1) else Get(t, k)
  {
    assert ([e] + t)[1..] == t;
  }

  /** An entry found at a position is found by `Get`. */
  lemma GetPresent<V>(o: JsObject<V>, i: nat)
    requires i < |o|
    ensures Get(o, o[i].0).Some?
  {
  }
}
