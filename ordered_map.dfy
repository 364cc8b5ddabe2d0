/** A map keyed by byte strings that also keeps its keys in ascending
    lexicographic order, standing for `RbTree<Blob, _>` (whose `for_each`
    visits keys in order) and for the stable `StableBTreeMap<Blob, u32>`
    (whose `iter` does the same). */
module OrderedMaps {
  import opened Bytes

  predicate StrictlySorted(s: seq<Blob>) {
    forall i, j :: 0 <= i < j < |s| ==> LexLess(s[i], s[j])
  }

  lemma SortedDistinct(s: seq<Blob>, i: int, j: int)
    requires StrictlySorted(s) && 0 <= i < |s| && 0 <= j < |s| && i != j
    ensures s[i] != s[j]
  {
    if i < j { LexIrreflexive(s[i]); } else { LexIrreflexive(s[j]); }
  }

  /** Where `RbTree::insert` puts a key it does not yet hold. */
  function InsertKey(s: seq<Blob>, k: Blob): (r: seq<Blob>)
    requires StrictlySorted(s)
    ensures StrictlySorted(r)
    ensures forall x :: x in r <==> x in s || x == k
    ensures k in s ==> r == s
    ensures k !in s ==> |r| == |s| + 1
  {
    if s == [] then [k]
    else if s[0] == k then s
    else if LexLess(k, s[0]) then
      assert forall j :: 0 <= j < |s| ==> LexLess(k, s[j]) by {
        forall j | 0 <= j < |s| ensures LexLess(k, s[j]) {
          if j > 0 { LexTransitive(k, s[0], s[j]); }
        }
      }
      assert k !in s by { LexIrreflexive(k); }
      [k] + s
    else
      var rest := InsertKey(s[1..], k);
      LexTotal(k, s[0]);
      assert forall x :: x in rest ==> LexLess(s[0], x);
      if k in s then
        assert k in s[1..];
        s
      else
        [s[0]] + rest
  }

  /** The keys without `k`. */
  function RemoveKey(s: seq<Blob>, k: Blob): (r: seq<Blob>)
    requires StrictlySorted(s)
    ensures StrictlySorted(r)
    ensures forall x :: x in r <==> x in s && x != k
  {
    if s == [] then []
    else
      var rest := RemoveKey(s[1..], k);
      assert forall x :: x in rest ==> LexLess(s[0], x);
      if s[0] == k then rest else [s[0]] + rest
  }

  datatype OrderedMap<V> = OrderedMap(keys: seq<Blob>, entries: map<Blob, V>) {

    predicate Valid() {
      StrictlySorted(keys)
      && (forall k :: k in entries ==> k in keys)
      && (forall k :: k in keys ==> k in entries)
    }

    /** `insert(k, v)`: a new key takes its place in the order; an existing
        key keeps it and gets the new value. */
    function Insert(k: Blob, v: V): (r: OrderedMap<V>)
      requires Valid()
      ensures r.Valid()
      ensures r.entries == entries[k := v]
      ensures k in entries ==> r.keys == keys
      ensures k !in entries ==> r.keys == InsertKey(keys, k)
    {
      OrderedMap(InsertKey(keys, k), entries[k := v])
    }

    /** `remove(k)`. */
    function Remove(k: Blob): (r: OrderedMap<V>)
      requires Valid()
      ensures r.Valid()
      ensures r.entries == entries - {k}
    {
      OrderedMap(RemoveKey(keys, k), entries - {k})
    }
  }

  function Empty<V>(): (r: OrderedMap<V>)
    ensures r.Valid() && r.keys == [] && r.entries == map[]
  {
    OrderedMap([], map[])
  }
}
