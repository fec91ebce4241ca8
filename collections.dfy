/** Listing the entries of a map, as `values.toList()` and
    `values.map { ... }` do in both servers. */
module Collections {

  /** The elements of a finite set, each exactly once, in an order that
      callers must not rely on. */
  ghost function Enumerate<K(!new)>(keys: set<K>): (ks: seq<K>)
    ensures |ks| == |keys|
    ensures forall k :: k in ks <==> k in keys
    ensures forall i, j :: 0 <= i < j < |ks| ==> ks[i] != ks[j]
    decreases keys
  {
    if keys == {} then []
    else
      var k :| k in keys;
      [k] + Enumerate(keys - {k})
  }
}
