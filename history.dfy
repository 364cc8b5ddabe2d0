/** The history index: for every juror, the ledger positions at which it was
    added and removed (add, remove, add, ...). An odd-length history means the
    juror is currently active. The canister keeps the histories in `TREE`
    encoded as blobs of little-endian u32s (`from_history`/`to_history`); this
    model stores the decoded histories and proves the codec round-trips. */
module Histories {
  import opened Bytes
  import opened Outcomes
  import opened OrderedMaps

  /** The most change points a juror may collect through re-adds. */
  const MAX_HISTORY: nat := 8

  type History = seq<u32>

  /** `TREE`: juror bytes to history, visited in key order. */
  type PoolTree = OrderedMap<History>

  // ---------------------------------------------------------------- codec

  /** `from_history`: the concatenated little-endian bytes of every entry. */
  function FromHistory(h: History): (r: Blob)
    ensures |r| == 4 * |h|
  {
    if h == [] then [] else LeBytes(h[0]) + FromHistory(h[1..])
  }

  /** `to_history`: `chunks_exact(4)` decoded as u32s; a trailing partial
      chunk is dropped. */
  function ToHistory(b: Blob): (h: History)
    ensures |h| == |b| / 4
    ensures forall i :: 0 <= i < |h| ==> h[i] == FromLeBytes(b[4 * i .. 4 * i + 4])
    decreases |b|
  {
    if |b| < 4 then []
    else
      var rest := ToHistory(b[4..]);
      assert forall i :: 0 <= i < |rest| ==> b[4..][4 * i .. 4 * i + 4] == b[4 * (i + 1) .. 4 * (i + 1) + 4];
      [FromLeBytes(b[..4])] + rest
  }

  lemma {:induction false} HistoryRoundTrip(h: History)
    ensures ToHistory(FromHistory(h)) == h
  {
    if h != [] {
      var b := FromHistory(h);
      assert b[..4] == LeBytes(h[0]);
      assert b[4..] == FromHistory(h[1..]);
      LeRoundTrip(h[0]);
      HistoryRoundTrip(h[1..]);
      assert h == [h[0]] + h[1..];
    }
  }

  lemma {:induction false} BlobRoundTrip(b: Blob)
    ensures FromHistory(ToHistory(b)) == b[..4 * (|b| / 4)]
    decreases |b|
  {
    if |b| >= 4 {
      LeBytesOf(b[..4]);
      BlobRoundTrip(b[4..]);
      var n := 4 * (|b| / 4);
      assert 4 * (|b[4..]| / 4) == n - 4;
      assert b[..n] == b[..4] + b[4..][..n - 4];
    }
  }

  /** Entry `i` occupies bytes `4i .. 4i+4` of the encoding. */
  lemma {:induction false} FromHistoryLayout(h: History, i: nat)
    requires i < |h|
    ensures FromHistory(h)[4 * i .. 4 * i + 4] == LeBytes(h[i])
  {
    if i > 0 {
      FromHistoryLayout(h[1..], i - 1);
      var b := FromHistory(h);
      assert b[4..] == FromHistory(h[1..]);
      assert b[4 * i .. 4 * i + 4] == b[4..][4 * (i - 1) .. 4 * (i - 1) + 4];
    }
  }

  // ---------------------------------------------------------- well-formedness

  predicate Active(h: History) {
    |h| % 2 == 1
  }

  predicate Increasing(h: History) {
    forall i, j :: 0 <= i < j < |h| ==> h[i] < h[j]
  }

  /** What every history of the index satisfies: strictly increasing change
      points, at most MAX_HISTORY of them, all before `bound`. */
  predicate WellFormed(h: History, bound: int) {
    Increasing(h) && |h| <= MAX_HISTORY && forall i :: 0 <= i < |h| ==> h[i] < bound
  }

  predicate SoundTree(t: PoolTree, bound: int) {
    t.Valid() && forall k :: k in t.entries ==> WellFormed(t.entries[k], bound)
  }

  // ---------------------------------------------------------------- updates

  /** One juror of `add`: an unseen juror starts a history at `index`; an
      inactive one is re-added unless its history is already full, which
      traps; an active one is left alone. */
  function AddOne(t: PoolTree, j: Blob, index: u32): (r: Result<PoolTree>)
    requires t.Valid()
    ensures r.Err? <==> j in t.entries && !Active(t.entries[j]) && |t.entries[j]| >= MAX_HISTORY
    ensures r.Err? ==> r.fault == MaxHistoryExceeded
    ensures r.Ok? ==> r.value.Valid()
    ensures r.Ok? ==> r.value.entries.Keys == t.entries.Keys + {j}
    ensures r.Ok? ==> forall k :: k in t.entries && k != j ==> r.value.entries[k] == t.entries[k]
    ensures r.Ok? && j !in t.entries ==> r.value.entries[j] == [index]
    ensures r.Ok? && j in t.entries ==>
      r.value.entries[j] == (if Active(t.entries[j]) then t.entries[j] else t.entries[j] + [index])
  {
    if j in t.entries then
      var h := t.entries[j];
      if |h| % 2 == 0 then
        if |h| >= MAX_HISTORY then Err(MaxHistoryExceeded)
        else Ok(t.Insert(j, h + [index]))
      else Ok(t)
    else Ok(t.Insert(j, [index]))
  }

  /** The loop of `add` over its jurors, stopping at the first trap. */
  function AddJurors(t: PoolTree, js: seq<Blob>, index: u32): (r: Result<PoolTree>)
    requires t.Valid()
    ensures r.Ok? ==> r.value.Valid()
    ensures r.Ok? ==> r.value.entries.Keys == t.entries.Keys + set j | j in js
    decreases |js|
  {
    if js == [] then Ok(t)
    else
      match AddJurors(t, js[..|js| - 1], index)
      case Err(f) => Err(f)
      case Ok(t1) =>
        MembersSnoc(js, js[..|js| - 1], js[|js| - 1]);
        AddOne(t1, js[|js| - 1], index)
  }

  /** The jurors of a list are those of all but its last, and its last. */
  lemma MembersSnoc(js: seq<Blob>, pre: seq<Blob>, last: Blob)
    requires js == pre + [last]
    ensures (set j | j in js) == (set j | j in pre) + {last}
  {
  }

  /** A trap part-way through the jurors is the trap of the whole call. */
  lemma {:induction false} AddJurorsTrap(t: PoolTree, js: seq<Blob>, n: nat, index: u32)
    requires t.Valid() && n <= |js|
    requires AddJurors(t, js[..n], index).Err?
    ensures AddJurors(t, js, index) == AddJurors(t, js[..n], index)
    decreases |js|
  {
    if n < |js| {
      var pre := js[..|js| - 1];
      assert pre[..n] == js[..n];
      AddJurorsTrap(t, pre, n, index);
    } else {
      assert js[..n] == js;
    }
  }

  /** One juror of `remove`: an active juror gets `index` appended; an unseen
      or inactive juror is left alone. */
  function RemoveOne(t: PoolTree, j: Blob, index: u32): (r: PoolTree)
    requires t.Valid()
    ensures r.Valid() && r.entries.Keys == t.entries.Keys
    ensures forall k :: k in t.entries && k != j ==> r.entries[k] == t.entries[k]
    ensures j in t.entries ==>
      r.entries[j] == (if Active(t.entries[j]) then t.entries[j] + [index] else t.entries[j])
  {
    if j in t.entries && |t.entries[j]| % 2 == 1 then t.Insert(j, t.entries[j] + [index])
    else t
  }

  /** The loop of `remove` over its jurors. */
  function RemoveJurors(t: PoolTree, js: seq<Blob>, index: u32): (r: PoolTree)
    requires t.Valid()
    ensures r.Valid() && r.entries.Keys == t.entries.Keys
    decreases |js|
  {
    if js == [] then t
    else RemoveOne(RemoveJurors(t, js[..|js| - 1], index), js[|js| - 1], index)
  }

  // ------------------------------------------------ effect of a whole request

  /** Whether `add` traps on juror `j`: its history says it is inactive and
      it already holds MAX_HISTORY change points. */
  predicate Full(t: PoolTree, j: Blob) {
    j in t.entries && !Active(t.entries[j]) && |t.entries[j]| >= MAX_HISTORY
  }

  /** The history `add` at `index` leaves for a listed juror, however often
      the request lists it. */
  function Added(t: PoolTree, j: Blob, index: u32): History
    requires t.Valid()
  {
    if j !in t.entries then [index]
    else if Active(t.entries[j]) then t.entries[j]
    else t.entries[j] + [index]
  }

  /** The history `remove` at `index` leaves for a listed, indexed juror. */
  function Removed(t: PoolTree, j: Blob, index: u32): History
    requires t.Valid() && j in t.entries
  {
    if Active(t.entries[j]) then t.entries[j] + [index] else t.entries[j]
  }

  /** After `add`, a juror that did not trap is active. */
  lemma AddedActive(t: PoolTree, j: Blob, index: u32)
    requires t.Valid() && !Full(t, j)
    ensures Active(Added(t, j, index))
  {
  }

  /** After `remove`, a listed juror is inactive. */
  lemma RemovedInactive(t: PoolTree, j: Blob, index: u32)
    requires t.Valid() && j in t.entries
    ensures !Active(Removed(t, j, index))
  {
  }

  /** `add` traps exactly when one of its jurors is full, and otherwise
      gives every listed juror its `Added` history and leaves every other
      juror alone. */
  lemma {:induction false} AddJurorsEffect(t: PoolTree, js: seq<Blob>, index: u32)
    requires t.Valid()
    ensures AddJurors(t, js, index).Err? <==> exists j :: j in js && Full(t, j)
    ensures AddJurors(t, js, index).Err? ==> AddJurors(t, js, index).fault == MaxHistoryExceeded
    ensures AddJurors(t, js, index).Ok? ==>
      forall k :: k in AddJurors(t, js, index).value.entries ==>
        AddJurors(t, js, index).value.entries[k] == if k in js then Added(t, k, index) else t.entries[k]
    decreases |js|
  {
    if js != [] {
      var pre, last := js[..|js| - 1], js[|js| - 1];
      assert js == pre + [last];
      AddJurorsEffect(t, pre, index);
      if AddJurors(t, pre, index).Ok? {
        var t1 := AddJurors(t, pre, index).value;
        assert AddJurors(t, js, index) == AddOne(t1, last, index);
        AddJurorsStep(t, pre, last, index, t1);
      }
    }
  }

  /** The step of `AddJurorsEffect`: one more juror after a prefix that did
      not trap. A juror listed before already has an active history, so
      listing it again changes nothing. */
  lemma AddJurorsStep(t: PoolTree, pre: seq<Blob>, last: Blob, index: u32, t1: PoolTree)
    requires t.Valid() && t1.Valid()
    requires forall j :: j in pre ==> !Full(t, j)
    requires t1.entries.Keys == t.entries.Keys + set j | j in pre
    requires forall k :: k in t1.entries ==>
      t1.entries[k] == if k in pre then Added(t, k, index) else t.entries[k]
    ensures AddOne(t1, last, index).Err? <==> Full(t, last)
    ensures AddOne(t1, last, index).Ok? ==>
      forall k :: k in AddOne(t1, last, index).value.entries ==>
        AddOne(t1, last, index).value.entries[k]
          == if k in pre || k == last then Added(t, k, index) else t.entries[k]
  {
    if last in pre {
      assert t1.entries[last] == Added(t, last, index);
      AddedActive(t, last, index);
    } else if last in t.entries {
      assert t1.entries[last] == t.entries[last];
    }
    var r := AddOne(t1, last, index);
    if r.Ok? {
      forall k | k in r.value.entries
        ensures r.value.entries[k] == if k in pre || k == last then Added(t, k, index) else t.entries[k]
      {
        if k != last {
          assert r.value.entries[k] == t1.entries[k];
        }
      }
    }
  }

  /** `remove` gives every listed juror its `Removed` history and leaves
      every other juror alone; it adds no juror. */
  lemma {:induction false} RemoveJurorsEffect(t: PoolTree, js: seq<Blob>, index: u32)
    requires t.Valid()
    ensures forall k :: k in t.entries ==>
      RemoveJurors(t, js, index).entries[k] == if k in js then Removed(t, k, index) else t.entries[k]
    decreases |js|
  {
    if js != [] {
      var pre, last := js[..|js| - 1], js[|js| - 1];
      assert js == pre + [last];
      RemoveJurorsEffect(t, pre, index);
      var t1 := RemoveJurors(t, pre, index);
      assert RemoveJurors(t, js, index) == RemoveOne(t1, last, index);
      RemoveJurorsStep(t, pre, last, index, t1);
    }
  }

  /** The step of `RemoveJurorsEffect`: a juror listed before is already
      inactive, so listing it again changes nothing. */
  lemma RemoveJurorsStep(t: PoolTree, pre: seq<Blob>, last: Blob, index: u32, t1: PoolTree)
    requires t.Valid() && t1.Valid() && t1.entries.Keys == t.entries.Keys
    requires forall k :: k in t.entries ==>
      t1.entries[k] == if k in pre then Removed(t, k, index) else t.entries[k]
    ensures forall k :: k in t.entries ==>
      RemoveOne(t1, last, index).entries[k] == if k in pre || k == last then Removed(t, k, index) else t.entries[k]
  {
    var r := RemoveOne(t1, last, index);
    forall k | k in t.entries
      ensures r.entries[k] == if k in pre || k == last then Removed(t, k, index) else t.entries[k]
    {
      if k != last {
        assert r.entries[k] == t1.entries[k];
      } else if last in pre {
        RemovedInactive(t, last, index);
      }
    }
  }

  // ------------------------------------------------------- preserved invariant

  /** The invariant in the middle of one `add` (`activated`) or `remove`
      (not `activated`) at `index`: every entry is before `index`, except the
      last entry of a history this very call has just switched. */
  predicate Midway(t: PoolTree, index: int, activated: bool) {
    t.Valid() && forall k :: k in t.entries ==> MidwayHistory(t.entries[k], index, activated)
  }

  predicate MidwayHistory(h: History, index: int, activated: bool) {
    Increasing(h) && |h| <= MAX_HISTORY &&
    forall i :: 0 <= i < |h| ==>
      h[i] < index || (h[i] == index && i == |h| - 1 && Active(h) == activated)
  }

  /** Appending `index` to a history that is midway the other way round. */
  lemma MidwayAppend(h: History, index: u32, activated: bool)
    requires MidwayHistory(h, index, activated)
    requires Active(h) != activated && |h| < MAX_HISTORY
    ensures MidwayHistory(h + [index], index, activated)
  {
    assert forall i :: 0 <= i < |h| ==> h[i] < index;
  }

  lemma MidwayFromSound(t: PoolTree, index: int, activated: bool)
    requires SoundTree(t, index)
    ensures Midway(t, index, activated)
  {
  }

  lemma MidwayToSound(t: PoolTree, index: int, activated: bool)
    requires Midway(t, index, activated)
    ensures SoundTree(t, index + 1)
  {
  }

  lemma AddOneMidway(t: PoolTree, j: Blob, index: u32)
    requires Midway(t, index, true)
    requires AddOne(t, j, index).Ok?
    ensures Midway(AddOne(t, j, index).value, index, true)
  {
    var r := AddOne(t, j, index).value;
    forall k | k in r.entries ensures MidwayHistory(r.entries[k], index, true) {
      if k != j {
        assert r.entries[k] == t.entries[k];
      } else if j in t.entries && !Active(t.entries[j]) {
        MidwayAppend(t.entries[j], index, true);
      } else if j !in t.entries {
        assert r.entries[j] == [index];
      }
    }
  }

  lemma {:induction false} AddJurorsMidway(t: PoolTree, js: seq<Blob>, index: u32)
    requires Midway(t, index, true)
    requires AddJurors(t, js, index).Ok?
    ensures Midway(AddJurors(t, js, index).value, index, true)
    decreases |js|
  {
    if js != [] {
      var pre := js[..|js| - 1];
      AddJurorsMidway(t, pre, index);
      AddOneMidway(AddJurors(t, pre, index).value, js[|js| - 1], index);
    }
  }

  /** An `add` at a position past every recorded one keeps every history
      strictly increasing and within MAX_HISTORY entries. */
  lemma AddJurorsSound(t: PoolTree, js: seq<Blob>, index: u32)
    requires SoundTree(t, index)
    requires AddJurors(t, js, index).Ok?
    ensures SoundTree(AddJurors(t, js, index).value, index + 1)
  {
    MidwayFromSound(t, index, true);
    AddJurorsMidway(t, js, index);
    MidwayToSound(AddJurors(t, js, index).value, index, true);
  }

  lemma RemoveOneMidway(t: PoolTree, j: Blob, index: u32)
    requires Midway(t, index, false)
    ensures Midway(RemoveOne(t, j, index), index, false)
  {
    var r := RemoveOne(t, j, index);
    forall k | k in r.entries ensures MidwayHistory(r.entries[k], index, false) {
      if k != j {
        assert r.entries[k] == t.entries[k];
      } else if Active(t.entries[j]) {
        MidwayAppend(t.entries[j], index, false);
      }
    }
  }

  lemma {:induction false} RemoveJurorsMidway(t: PoolTree, js: seq<Blob>, index: u32)
    requires Midway(t, index, false)
    ensures Midway(RemoveJurors(t, js, index), index, false)
    decreases |js|
  {
    if js != [] {
      var pre := js[..|js| - 1];
      RemoveJurorsMidway(t, pre, index);
      RemoveOneMidway(RemoveJurors(t, pre, index), js[|js| - 1], index);
    }
  }

  /** A `remove` at a position past every recorded one keeps every history
      strictly increasing and within MAX_HISTORY entries: only active (odd,
      so at most MAX_HISTORY - 1 long) histories grow. */
  lemma RemoveJurorsSound(t: PoolTree, js: seq<Blob>, index: u32)
    requires SoundTree(t, index)
    ensures SoundTree(RemoveJurors(t, js, index), index + 1)
  {
    MidwayFromSound(t, index, false);
    RemoveJurorsMidway(t, js, index);
    MidwayToSound(RemoveJurors(t, js, index), index, false);
  }
}
