/** The map `operator+` of common.h. */
module Common {

  /**
    `m1 + m2`: a copy of `m1`, then every entry of `m2` assigned into it, so a
    key of both takes `m2`'s value. The result is Dafny's own right-biased
    map union; the entries of `m2` go to distinct keys, so the order of the
    loop does not matter.
   */
  method MapPlus<K(==), V>(m1: map<K, V>, m2: map<K, V>) returns (m: map<K, V>)
    ensures m.Keys == m1.Keys + m2.Keys
    ensures forall k :: k in m2 ==> m[k] == m2[k]
    ensures forall k :: k in m1 && k !in m2 ==> m[k] == m1[k]
    ensures m == m1 + m2
  {
    m := m1;
    var rest := m2.Keys;
    while rest != {}
      invariant rest <= m2.Keys
      invariant m.Keys == m1.Keys + (m2.Keys - rest)
      invariant forall k :: k in m2 && k !in rest ==> m[k] == m2[k]
      invariant forall k :: k in m1 && (k !in m2 || k in rest) ==> m[k] == m1[k]
      decreases rest
    {
      var k :| k in rest;
      m := m[k := m2[k]];
      rest := rest - {k};
    }
  }
}
