/** `collect_pool`: which jurors were active at a ledger position, read off
    their histories, in key order. And the facts that make a past pool a
    fixed thing: later adds and removes do not change it. */
module Pool {
  import opened Bytes
  import opened OrderedMaps
  import opened Histories

  /** A juror with history `h` is in the pool at `index` when it is still
      active since a change point at or before `index`, or when some
      (added, removed) span of its history covers `index`. */
  predicate ActiveAt(h: History, index: int) {
    (|h| % 2 == 1 && h[|h| - 1] <= index)
    || exists s :: 0 <= s < |h| - 1 && s % 2 == 0 && h[s] <= index < h[s + 1]
  }

  /** The jurors of `keys`, in order, that are active at `index`. */
  function PoolOf(keys: seq<Blob>, entries: map<Blob, History>, index: int): (r: seq<Blob>)
    requires forall k :: k in keys ==> k in entries
    ensures |r| <= |keys|
  {
    if keys == [] then []
    else
      var rest := PoolOf(keys[1..], entries, index);
      assert forall x :: x in keys[1..] ==> x in keys;
      if ActiveAt(entries[keys[0]], index) then [keys[0]] + rest else rest
  }

  lemma {:induction false} PoolOfMembers(keys: seq<Blob>, entries: map<Blob, History>, index: int)
    requires forall k :: k in keys ==> k in entries
    ensures forall x :: x in PoolOf(keys, entries, index) <==> x in keys && ActiveAt(entries[x], index)
    decreases |keys|
  {
    if keys != [] {
      assert forall x :: x in keys[1..] ==> x in keys;
      PoolOfMembers(keys[1..], entries, index);
      assert forall x :: x in keys <==> x == keys[0] || x in keys[1..];
    }
  }

  lemma {:induction false} PoolOfSorted(keys: seq<Blob>, entries: map<Blob, History>, index: int)
    requires forall k :: k in keys ==> k in entries
    requires StrictlySorted(keys)
    ensures StrictlySorted(PoolOf(keys, entries, index))
    decreases |keys|
  {
    if keys != [] {
      assert forall x :: x in keys[1..] ==> x in keys;
      PoolOfSorted(keys[1..], entries, index);
      PoolOfMembers(keys[1..], entries, index);
      var rest := PoolOf(keys[1..], entries, index);
      assert forall x :: x in rest ==> LexLess(keys[0], x);
    }
  }

  /** `collect_pool(index)` over the tree `t`. */
  function PoolAt(t: PoolTree, index: int): seq<Blob>
    requires t.Valid()
  {
    PoolOf(t.keys, t.entries, index)
  }

  lemma {:induction false} PoolOfAppend(a: seq<Blob>, b: seq<Blob>, entries: map<Blob, History>, index: int)
    requires forall k :: k in a + b ==> k in entries
    ensures PoolOf(a + b, entries, index) == PoolOf(a, entries, index) + PoolOf(b, entries, index)
    decreases |a|
  {
    if a != [] {
      var ab := a + b;
      assert ab[1..] == a[1..] + b;
      assert ab[0] == a[0];
      assert forall k :: k in a[1..] ==> k in a;
      PoolOfAppend(a[1..], b, entries, index);
      var head := if ActiveAt(entries[a[0]], index) then [a[0]] else [];
      assert PoolOf(ab, entries, index) == head + PoolOf(ab[1..], entries, index);
      assert PoolOf(a, entries, index) == head + PoolOf(a[1..], entries, index);
    } else {
      assert a + b == b;
    }
  }

  /** The check `collect_pool` makes for one juror: the open-ended last
      entry first, then span by span until one contains `index`. */
  method CheckActive(h: History, index: u32) returns (found: bool)
    ensures found == ActiveAt(h, index)
  {
    found := false;
    if |h| % 2 == 1 {
      if h[|h| - 1] <= index {
        found := true;
      }
    }
    if !found {
      var s := 0;
      while s + 1 < |h|
        invariant s % 2 == 0 && 0 <= s <= |h|
        invariant !found
        invariant forall s' :: 0 <= s' < s && s' % 2 == 0 ==> !(h[s'] <= index < h[s' + 1])
      {
        if h[s] <= index && h[s + 1] > index {
          found := true;
          break;
        }
        s := s + 2;
      }
      if !found {
        forall s' | 0 <= s' < |h| - 1 && s' % 2 == 0 ensures !(h[s'] <= index < h[s' + 1]) {
          assert s' < s;
        }
      }
    }
  }

  /** The loop of `collect_pool`: every key in order, kept when the juror
      is active at `index`. */
  method CollectPool(t: PoolTree, index: u32) returns (pool: seq<Blob>)
    requires t.Valid()
    ensures pool == PoolAt(t, index)
  {
    pool := [];
    for n := 0 to |t.keys|
      invariant pool == PoolOf(t.keys[..n], t.entries, index)
    {
      var k := t.keys[n];
      var found := CheckActive(t.entries[k], index);
      if found {
        pool := pool + [k];
      }
      assert t.keys[..n + 1] == t.keys[..n] + [k];
      PoolOfAppend(t.keys[..n], [k], t.entries, index);
    }
    assert t.keys[..|t.keys|] == t.keys;
  }

  /** The pool lists each juror once, in key order. */
  lemma PoolSorted(t: PoolTree, index: int)
    requires t.Valid()
    ensures StrictlySorted(PoolAt(t, index))
    ensures forall i, j :: 0 <= i < j < |PoolAt(t, index)| ==> PoolAt(t, index)[i] != PoolAt(t, index)[j]
  {
    var p := PoolAt(t, index);
    PoolOfSorted(t.keys, t.entries, index);
    forall i, j | 0 <= i < j < |p| ensures p[i] != p[j] {
      SortedDistinct(p, i, j);
    }
  }

  /** A juror is in the pool exactly when its history says so. */
  lemma PoolMembers(t: PoolTree, index: int, k: Blob)
    requires t.Valid()
    ensures k in PoolAt(t, index) <==> k in t.entries && ActiveAt(t.entries[k], index)
  {
    PoolOfMembers(t.keys, t.entries, index);
  }

  // -------------------------------------------------------------- stability

  /** A change point later than `index` does not change activity at `index`. */
  lemma ActiveAtAppend(h: History, p: u32, index: int)
    requires index < p
    ensures ActiveAt(h + [p], index) == ActiveAt(h, index)
  {
    var h' := h + [p];
    if ActiveAt(h, index) {
      if |h| % 2 == 1 && h[|h| - 1] <= index {
        assert h'[|h| - 1] <= index < h'[|h|];
      } else {
        var s :| 0 <= s < |h| - 1 && s % 2 == 0 && h[s] <= index < h[s + 1];
        assert h'[s] <= index < h'[s + 1];
      }
    }
    if ActiveAt(h', index) {
      var s :| 0 <= s < |h'| - 1 && s % 2 == 0 && h'[s] <= index < h'[s + 1];
      if s + 1 == |h| {
        assert |h| % 2 == 1 && h[|h| - 1] <= index;
      } else {
        assert h[s] <= index < h[s + 1];
      }
    }
  }

  /** A history that starts after `index` is not active at `index`. */
  lemma NotYetActive(h: History, index: int)
    requires forall i :: 0 <= i < |h| ==> index < h[i]
    ensures !ActiveAt(h, index)
  {
  }

  /** Activity only changes at change points: with none in `(i, p]`, the
      pools at `i` and at `p` agree. */
  lemma ActiveAtSame(h: History, i: int, p: int)
    requires i <= p
    requires forall n :: 0 <= n < |h| ==> !(i < h[n] <= p)
    ensures ActiveAt(h, i) == ActiveAt(h, p)
  {
    if ActiveAt(h, p) && !(|h| % 2 == 1 && h[|h| - 1] <= p) {
      var s :| 0 <= s < |h| - 1 && s % 2 == 0 && h[s] <= p < h[s + 1];
      assert h[s] <= i < h[s + 1];
    }
    if ActiveAt(h, i) && !(|h| % 2 == 1 && h[|h| - 1] <= i) {
      var s :| 0 <= s < |h| - 1 && s % 2 == 0 && h[s] <= i < h[s + 1];
      assert h[s] <= p < h[s + 1];
    }
  }

  lemma {:induction false} PoolOfSameActivity(keys: seq<Blob>, e1: map<Blob, History>, e2: map<Blob, History>, i: int, p: int)
    requires forall k :: k in keys ==> k in e1 && k in e2
    requires forall k :: k in keys ==> ActiveAt(e1[k], i) == ActiveAt(e2[k], p)
    ensures PoolOf(keys, e1, i) == PoolOf(keys, e2, p)
    decreases |keys|
  {
    if keys != [] {
      assert forall k :: k in keys[1..] ==> k in keys;
      PoolOfSameActivity(keys[1..], e1, e2, i, p);
    }
  }

  lemma {:induction false} PoolOfInsertInactive(keys: seq<Blob>, entries: map<Blob, History>, k: Blob, index: int)
    requires StrictlySorted(keys) && k in entries && !ActiveAt(entries[k], index)
    requires forall x :: x in keys ==> x in entries
    ensures PoolOf(InsertKey(keys, k), entries, index) == PoolOf(keys, entries, index)
    decreases |keys|
  {
    if keys != [] && keys[0] != k && !LexLess(k, keys[0]) {
      assert forall x :: x in keys[1..] ==> x in keys;
      PoolOfInsertInactive(keys[1..], entries, k, index);
      if k !in keys {
        assert InsertKey(keys, k) == [keys[0]] + InsertKey(keys[1..], k);
      }
    }
  }

  /** The pool at a fixed past position is the same after a window with no
      change point in it. */
  lemma PoolSameBetween(t: PoolTree, i: int, p: int)
    requires t.Valid() && i <= p
    requires forall k, n :: k in t.entries && 0 <= n < |t.entries[k]| ==> !(i < t.entries[k][n] <= p)
    ensures PoolAt(t, i) == PoolAt(t, p)
  {
    forall k | k in t.keys ensures ActiveAt(t.entries[k], i) == ActiveAt(t.entries[k], p) {
      ActiveAtSame(t.entries[k], i, p);
    }
    PoolOfSameActivity(t.keys, t.entries, t.entries, i, p);
  }

  lemma AddOneKeepsPool(t: PoolTree, j: Blob, index: u32, p: int)
    requires t.Valid() && p < index
    requires AddOne(t, j, index).Ok?
    ensures PoolAt(AddOne(t, j, index).value, p) == PoolAt(t, p)
  {
    var r := AddOne(t, j, index).value;
    if j in t.entries {
      assert r.keys == t.keys;
      forall k | k in t.keys ensures ActiveAt(r.entries[k], p) == ActiveAt(t.entries[k], p) {
        if k == j && !Active(t.entries[j]) {
          ActiveAtAppend(t.entries[j], index, p);
        }
      }
      PoolOfSameActivity(t.keys, r.entries, t.entries, p, p);
    } else {
      NotYetActive([index], p);
      forall k | k in t.keys ensures ActiveAt(r.entries[k], p) == ActiveAt(t.entries[k], p) {
        assert r.entries[k] == t.entries[k];
      }
      PoolOfSameActivity(t.keys, r.entries, t.entries, p, p);
      PoolOfInsertInactive(t.keys, r.entries, j, p);
    }
  }

  /** An `add` at a later position, including one that brings in jurors never
      seen before, leaves every earlier pool as it was. */
  lemma {:induction false} AddJurorsKeepsPool(t: PoolTree, js: seq<Blob>, index: u32, p: int)
    requires t.Valid() && p < index
    requires AddJurors(t, js, index).Ok?
    ensures PoolAt(AddJurors(t, js, index).value, p) == PoolAt(t, p)
    decreases |js|
  {
    if js != [] {
      var pre := js[..|js| - 1];
      AddJurorsKeepsPool(t, pre, index, p);
      AddOneKeepsPool(AddJurors(t, pre, index).value, js[|js| - 1], index, p);
    }
  }

  lemma RemoveOneKeepsPool(t: PoolTree, j: Blob, index: u32, p: int)
    requires t.Valid() && p < index
    ensures PoolAt(RemoveOne(t, j, index), p) == PoolAt(t, p)
  {
    var r := RemoveOne(t, j, index);
    assert r.keys == t.keys;
    forall k | k in t.keys ensures ActiveAt(r.entries[k], p) == ActiveAt(t.entries[k], p) {
      if k == j && Active(t.entries[j]) {
        ActiveAtAppend(t.entries[j], index, p);
      }
    }
    PoolOfSameActivity(t.keys, r.entries, t.entries, p, p);
  }

  /** A `remove` at a later position leaves every earlier pool as it was. */
  lemma {:induction false} RemoveJurorsKeepsPool(t: PoolTree, js: seq<Blob>, index: u32, p: int)
    requires t.Valid() && p < index
    ensures PoolAt(RemoveJurors(t, js, index), p) == PoolAt(t, p)
    decreases |js|
  {
    if js != [] {
      var pre := js[..|js| - 1];
      RemoveJurorsKeepsPool(t, pre, index, p);
      RemoveOneKeepsPool(RemoveJurors(t, pre, index), js[|js| - 1], index, p);
    }
  }
}
