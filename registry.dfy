/** An insertion-ordered dictionary keyed by strings, with Python `dict` semantics. */
module Registry {

  /** `keys` lists the keys in insertion order; `entries` holds the values. */
  datatype Registry<V> = Registry(keys: seq<string>, entries: map<string, V>)

  ghost predicate Valid<V>(r: Registry<V>)
  {
    (forall k :: k in r.entries <==> k in r.keys) &&
    (forall i :: 0 <= i < |r.keys| ==> r.keys[i] !in r.keys[..i])
  }

  function Empty<V>(): (r: Registry<V>)
    ensures Valid(r) && r.keys == []
  {
    Registry([], map[])
  }

  /** `d[k] = v`: a new key goes to the end; an existing key keeps its position and gets
      the new value. */
  function Put<V>(r: Registry<V>, k: string, v: V): (r': Registry<V>)
    requires Valid(r)
    ensures Valid(r')
    ensures r'.entries == r.entries[k := v]
    ensures k in r.entries ==> r'.keys == r.keys
    ensures k !in r.entries ==> r'.keys == r.keys + [k]
  {
    if k in r.entries then Registry(r.keys, r.entries[k := v])
    else Registry(r.keys + [k], r.entries[k := v])
  }

  /** `r2` is `r` with possibly some new keys added at the end; no entry of `r` changed. */
  ghost predicate Grows<V>(r: Registry<V>, r2: Registry<V>)
  {
    |r.keys| <= |r2.keys| && r2.keys[..|r.keys|] == r.keys &&
    forall k :: k in r.entries ==> k in r2.entries && r2.entries[k] == r.entries[k]
  }

  lemma GrowsReflexive<V>(r: Registry<V>)
    ensures Grows(r, r)
  {
  }

  lemma GrowsTransitive<V>(r1: Registry<V>, r2: Registry<V>, r3: Registry<V>)
    requires Grows(r1, r2) && Grows(r2, r3)
    ensures Grows(r1, r3)
  {
    assert r3.keys[..|r2.keys|][..|r1.keys|] == r3.keys[..|r1.keys|];
  }

  /** Inserting a key that is absent is growth. */
  lemma PutAbsentGrows<V>(r: Registry<V>, k: string, v: V)
    requires Valid(r) && k !in r.entries
    ensures Grows(r, Put(r, k, v))
  {
  }

  /** The values in key order, as `for key in d: d[key]` visits them. */
  function Ordered<V>(r: Registry<V>): (vs: seq<V>)
    requires Valid(r)
    ensures |vs| == |r.keys|
    ensures forall i :: 0 <= i < |r.keys| ==> vs[i] == r.entries[r.keys[i]]
  {
    seq(|r.keys|, i requires 0 <= i < |r.keys| => r.entries[r.keys[i]])
  }
}
