/** A dictionary that remembers insertion order, as Python's dict and JavaScript's Map do. */
module OrderedDict {
  import opened Common

  datatype Dict<K(==,!new), V> = Dict(keys: seq<K>, vals: map<K, V>) {
    ghost predicate Valid() {
      && Distinct(keys)
      && vals.Keys == (set k | k in keys)
    }

    /** A new key goes to the end; an existing one keeps its place. */
    function Put(k: K, v: V): (d: Dict<K, V>)
      requires Valid()
      ensures d.Valid()
      ensures d.vals == vals[k := v]
      ensures keys <= d.keys
    {
      Dict(if k in vals then keys else keys + [k], vals[k := v])
    }

    function Remove(k: K): (d: Dict<K, V>)
      requires Valid()
      ensures d.Valid()
      ensures d.vals == vals - {k}
      ensures d.keys == Filter(OtherThan(k), keys)
    {
      var rest := Filter(OtherThan(k), keys);
      FilterMembers(OtherThan(k), keys);
      FilterDistinct(OtherThan(k), keys);
      assert (set x | x in rest) == vals.Keys - {k};
      Dict(rest, vals - {k})
    }

    function Values(): (s: seq<V>)
      requires Valid()
      ensures |s| == |keys|
      ensures forall i :: 0 <= i < |s| ==> s[i] == vals[keys[i]]
    {
      seq(|keys|, i requires 0 <= i < |keys| => vals[keys[i]])
    }
  }

  function OtherThan<K(==)>(k: K): K -> bool {
    x => x != k
  }

  lemma {:induction false} FilterDistinct<K(!new)>(p: K -> bool, s: seq<K>)
    requires Distinct(s)
    ensures Distinct(Filter(p, s))
  {
    if s != [] {
      FilterDistinct(p, s[1..]);
      FilterMembers(p, s[1..]);
    }
  }
}
