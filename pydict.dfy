/**
 * A Python dict as the client uses it: keys kept in insertion order, a
 * value per key, `d[k] = v`, `d.items()` and the truth test `not d`.
 */
module PyDict {
  /** The keys in insertion order and the value stored under each. */
  datatype Dict<K(==, !new), V> = Dict(keys: seq<K>, values: map<K, V>)
  {
    /** Every key is listed once, and the listed keys are the stored ones. */
    ghost predicate Valid() {
      && (forall i, j :: 0 <= i < j < |keys| ==> keys[i] != keys[j])
      && (forall k :: k in values <==> k in keys)
    }

    /** `not d`. */
    predicate IsEmpty() {
      |keys| == 0
    }
  }

  /** `{}`. */
  function Empty<K(==, !new), V>(): (d: Dict<K, V>)
    ensures d.Valid() && d.IsEmpty() && d.values == map[]
  {
    Dict([], map[])
  }

  /**
   * `d[k] = v`: a new key goes to the end of the order, an existing key
   * keeps its place and only its value changes.
   */
  function Put<K(==, !new), V>(d: Dict<K, V>, k: K, v: V): (e: Dict<K, V>)
    requires d.Valid()
    ensures e.Valid()
    ensures k in e.values && e.values[k] == v
    ensures forall j :: j != k ==> (j in e.values <==> j in d.values)
    ensures forall j :: j != k && j in d.values ==> e.values[j] == d.values[j]
    ensures |d.keys| <= |e.keys| && e.keys[..|d.keys|] == d.keys
    ensures !e.IsEmpty()
  {
    if k in d.values then Dict(d.keys, d.values[k := v])
    else Dict(d.keys + [k], d.values[k := v])
  }

  /** `list(d.items())`: one (key, value) pair per key, in insertion order. */
  function Items<K(==, !new), V>(d: Dict<K, V>): (items: seq<(K, V)>)
    requires d.Valid()
    ensures |items| == |d.keys|
    ensures forall i :: 0 <= i < |items| ==> items[i].0 == d.keys[i] && items[i].1 == d.values[d.keys[i]]
  {
    seq(|d.keys|, i requires 0 <= i < |d.keys| => (d.keys[i], d.values[d.keys[i]]))
  }
}
