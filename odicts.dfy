/** Python's `dict` as the pipeline uses it: a map that remembers the order in
    which its keys were first inserted. Assigning to an existing key changes its
    value and keeps its place; assigning to a new key appends it. */
module ODicts {

  datatype ODict<K(==,!new), V> = ODict(keys: seq<K>, vals: map<K, V>) {

    /** Every key is listed once, and the listed keys are the keys of the map. */
    ghost predicate Valid() {
      && (forall i, j :: 0 <= i < j < |keys| ==> keys[i] != keys[j])
      && (forall k :: k in vals <==> k in keys)
    }

    /** `d[k] = v`. */
    function Put(k: K, v: V): (r: ODict<K, V>)
      ensures k in r.vals && r.vals[k] == v
      ensures forall k' :: k' != k ==> (k' in r.vals <==> k' in vals)
      ensures forall k' :: k' != k && k' in vals ==> r.vals[k'] == vals[k']
      ensures r.keys == if k in vals then keys else keys + [k]
    {
      if k in vals then ODict(keys, vals[k := v]) else ODict(keys + [k], vals[k := v])
    }

    /** `list(d.values())`. */
    function Values(): (vs: seq<V>)
      requires Valid()
      ensures |vs| == |keys|
      ensures forall i :: 0 <= i < |keys| ==> vs[i] == vals[keys[i]]
    {
      seq(|keys|, i requires 0 <= i < |keys| => vals[keys[i]])
    }
  }

  /** Assignment keeps a dictionary valid and only ever appends to its keys. */
  lemma PutValid<K(!new), V>(d: ODict<K, V>, k: K, v: V)
    requires d.Valid()
    ensures d.Put(k, v).Valid()
  {
  }

  lemma PutPrefix<K(!new), V>(d: ODict<K, V>, k: K, v: V)
    ensures |d.keys| <= |d.Put(k, v).keys| && d.Put(k, v).keys[..|d.keys|] == d.keys
  {
  }

  function Empty<K(==,!new), V>(): (d: ODict<K, V>)
    ensures d.Valid() && d.keys == [] && d.vals == map[]
  {
    ODict([], map[])
  }

  /** The elements of `s` in order of first occurrence, each once. */
  function Distinct<T(==)>(s: seq<T>): (r: seq<T>)
  {
    if s == [] then []
    else
      var r := Distinct(s[..|s| - 1]);
      if s[|s| - 1] in r then r else r + [s[|s| - 1]]
  }

  /** `Distinct` keeps exactly the elements of `s`, each once, in the order of
      their first occurrence in `s`. */
  lemma {:induction false} DistinctSpec<T>(s: seq<T>)
    ensures forall x :: x in Distinct(s) <==> x in s
    ensures forall i, j :: 0 <= i < j < |Distinct(s)| ==> Distinct(s)[i] != Distinct(s)[j]
    ensures forall i, j :: 0 <= i < j < |Distinct(s)| ==> FirstIndex(s, Distinct(s)[i]) < FirstIndex(s, Distinct(s)[j])
  {
    if s != [] {
      var init := s[..|s| - 1];
      DistinctSpec(init);
      forall x | x in init ensures FirstIndex(s, x) == FirstIndex(init, x) {
        FirstIndexPrefix(init, s[|s| - 1], x);
        assert s == init + [s[|s| - 1]];
      }
      if s[|s| - 1] !in init {
        assert s == init + [s[|s| - 1]];
        FirstIndexLast(init, s[|s| - 1]);
      }
    }
  }

  /** Index of the first occurrence of `x` in `s`. */
  function FirstIndex<T(==)>(s: seq<T>, x: T): (i: nat)
    requires x in s
    ensures i < |s| && s[i] == x && x !in s[..i]
  {
    if s[0] == x then 0
    else
      var j := FirstIndex(s[1..], x);
      assert s[1..][..j] == s[1..j + 1];
      assert s[..j + 1] == [s[0]] + s[1..j + 1];
      1 + j
  }

  lemma FirstIndexUnique<T>(s: seq<T>, x: T, i: nat)
    requires i < |s| && s[i] == x && x !in s[..i]
    ensures FirstIndex(s, x) == i
  {
  }

  lemma FirstIndexPrefix<T>(init: seq<T>, y: T, x: T)
    requires x in init
    ensures x in init + [y] && FirstIndex(init + [y], x) == FirstIndex(init, x)
  {
    var i := FirstIndex(init, x);
    var s := init + [y];
    assert s[..i] == init[..i];
    FirstIndexUnique(s, x, i);
  }

  lemma FirstIndexLast<T>(init: seq<T>, y: T)
    requires y !in init
    ensures FirstIndex(init + [y], y) == |init|
  {
    var s := init + [y];
    assert s[..|init|] == init;
    FirstIndexUnique(s, y, |init|);
  }

  // Eight assignments in a row, as one lane of a snapshot makes them. Stated
  // over abstract keys so that the facts they need are only the keys' equalities.

  function Put8<K(!new), V>(d: ODict<K, V>, k1: K, k2: K, k3: K, k4: K, k5: K, k6: K, k7: K, k8: K,
                            v1: V, v2: V, v3: V, v4: V, v5: V, v6: V, v7: V, v8: V): ODict<K, V> {
    d.Put(k1, v1).Put(k2, v2).Put(k3, v3).Put(k4, v4).Put(k5, v5).Put(k6, v6).Put(k7, v7).Put(k8, v8)
  }

  lemma Put8Frame<K(!new), V>(d: ODict<K, V>, k1: K, k2: K, k3: K, k4: K, k5: K, k6: K, k7: K, k8: K,
                              v1: V, v2: V, v3: V, v4: V, v5: V, v6: V, v7: V, v8: V)
    ensures var h := Put8(d, k1, k2, k3, k4, k5, k6, k7, k8, v1, v2, v3, v4, v5, v6, v7, v8);
      forall k :: k != k1 && k != k2 && k != k3 && k != k4 && k != k5 && k != k6 && k != k7 && k != k8 ==>
        (k in h.vals <==> k in d.vals) && (k in d.vals ==> h.vals[k] == d.vals[k])
  {
  }

  lemma Put8Values<K(!new), V>(d: ODict<K, V>, k1: K, k2: K, k3: K, k4: K, k5: K, k6: K, k7: K, k8: K,
                               v1: V, v2: V, v3: V, v4: V, v5: V, v6: V, v7: V, v8: V)
    requires k1 != k2 && k1 != k3 && k1 != k4 && k1 != k5 && k1 != k6 && k1 != k7 && k1 != k8
    requires k2 != k3 && k2 != k4 && k2 != k5 && k2 != k6 && k2 != k7 && k2 != k8
    requires k3 != k4 && k3 != k5 && k3 != k6 && k3 != k7 && k3 != k8
    requires k4 != k5 && k4 != k6 && k4 != k7 && k4 != k8
    requires k5 != k6 && k5 != k7 && k5 != k8
    requires k6 != k7 && k6 != k8
    requires k7 != k8
    ensures var h := Put8(d, k1, k2, k3, k4, k5, k6, k7, k8, v1, v2, v3, v4, v5, v6, v7, v8);
      && k1 in h.vals && h.vals[k1] == v1 && k2 in h.vals && h.vals[k2] == v2
      && k3 in h.vals && h.vals[k3] == v3 && k4 in h.vals && h.vals[k4] == v4
      && k5 in h.vals && h.vals[k5] == v5 && k6 in h.vals && h.vals[k6] == v6
      && k7 in h.vals && h.vals[k7] == v7 && k8 in h.vals && h.vals[k8] == v8
  {
  }

  lemma Put8Valid<K(!new), V>(d: ODict<K, V>, k1: K, k2: K, k3: K, k4: K, k5: K, k6: K, k7: K, k8: K,
                              v1: V, v2: V, v3: V, v4: V, v5: V, v6: V, v7: V, v8: V)
    requires d.Valid()
    ensures Put8(d, k1, k2, k3, k4, k5, k6, k7, k8, v1, v2, v3, v4, v5, v6, v7, v8).Valid()
  {
    var h1 := d.Put(k1, v1);
    var h2 := h1.Put(k2, v2);
    var h3 := h2.Put(k3, v3);
    var h4 := h3.Put(k4, v4);
    var h5 := h4.Put(k5, v5);
    var h6 := h5.Put(k6, v6);
    var h7 := h6.Put(k7, v7);
    PutValid(d, k1, v1); PutValid(h1, k2, v2); PutValid(h2, k3, v3); PutValid(h3, k4, v4);
    PutValid(h4, k5, v5); PutValid(h5, k6, v6); PutValid(h6, k7, v7); PutValid(h7, k8, v8);
  }

  lemma Put8Prefix<K(!new), V>(d: ODict<K, V>, k1: K, k2: K, k3: K, k4: K, k5: K, k6: K, k7: K, k8: K,
                               v1: V, v2: V, v3: V, v4: V, v5: V, v6: V, v7: V, v8: V)
    ensures var h := Put8(d, k1, k2, k3, k4, k5, k6, k7, k8, v1, v2, v3, v4, v5, v6, v7, v8);
      |d.keys| <= |h.keys| && h.keys[..|d.keys|] == d.keys
  {
    var h1 := d.Put(k1, v1);
    var h2 := h1.Put(k2, v2);
    var h3 := h2.Put(k3, v3);
    var h4 := h3.Put(k4, v4);
    var h5 := h4.Put(k5, v5);
    var h6 := h5.Put(k6, v6);
    var h7 := h6.Put(k7, v7);
    var h8 := h7.Put(k8, v8);
    PutPrefix(d, k1, v1); PutPrefix(h1, k2, v2); PutPrefix(h2, k3, v3); PutPrefix(h3, k4, v4);
    PutPrefix(h4, k5, v5); PutPrefix(h5, k6, v6); PutPrefix(h6, k7, v7); PutPrefix(h7, k8, v8);
    PrefixTrans(d.keys, h1.keys, h2.keys);
    PrefixTrans(d.keys, h2.keys, h3.keys);
    PrefixTrans(d.keys, h3.keys, h4.keys);
    PrefixTrans(d.keys, h4.keys, h5.keys);
    PrefixTrans(d.keys, h5.keys, h6.keys);
    PrefixTrans(d.keys, h6.keys, h7.keys);
    PrefixTrans(d.keys, h7.keys, h8.keys);
  }

  lemma PrefixTrans<T>(a: seq<T>, b: seq<T>, c: seq<T>)
    requires |a| <= |b| && b[..|a|] == a
    requires |b| <= |c| && c[..|b|] == b
    ensures |a| <= |c| && c[..|a|] == a
  {
    assert c[..|a|] == c[..|b|][..|a|];
  }
}
