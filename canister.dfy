/** The jury canister as a state machine: its stable state (the committed
    log, the pending batch, the genesis hash cell, the history index and the
    authorization map) together with the value it last handed to the host
    as certified data, and every endpoint as a transition of that state.

    Each message runs atomically: when an endpoint traps, the Internet
    Computer discards every change the message made. An endpoint here then
    returns `Err(fault)` and the state it started from. The `is_authorized`
    guard of an update endpoint rejects the message before it runs, which is
    also an `Err` with no change. Host calls are inputs: the caller's
    principal, the certificate `data_certificate` returns, the bytes
    `raw_rand` delivers to `select`.

    Each endpoint is given twice: as a function (`AddSpec`, ...) that says
    what the message does, and as a method (`AddStep`, ...) that does it the
    way the canister does, loop by loop, proved to agree with the function. */
module Canister {
  import opened Bytes
  import opened Outcomes
  import opened OrderedMaps
  import opened Histories
  import opened Pool
  import opened Sampler
  import opened Selection
  import opened Ledger
  import opened Hex

  /** The key size `AUTH` is created with. */
  const MAX_KEY_SIZE: nat := 32

  /** An Internet Computer principal: at most 29 bytes, so always a key
      `AUTH` accepts. */
  type Principal = p: Blob | |p| <= 29

  /** `Auth::Admin as u32`, the only value stored in `AUTH`. */
  const ADMIN: u32 := 0

  datatype State = State(
    log: seq<Block>,       // `LOG`, each entry decoded
    pending: seq<Data>,    // `PENDING_DATA`
    genesis: Hash,         // `PREVIOUS_HASH`: what the first block links to
    tree: PoolTree,        // `TREE`
    auth: OrderedMap<u32>, // `AUTH`
    certifiedData: Blob)   // what the host holds from `set_certified_data`
  {
    /** The shape every message keeps: well-formed maps, and only
        administrators (whose keys fit `AUTH`) in `AUTH`. */
    predicate Valid() {
      && tree.Valid() && auth.Valid()
      && forall k :: k in auth.entries ==> |k| <= 29 && auth.entries[k] == ADMIN
    }

    /** The ledger invariant: the log is a hash chain from the genesis
        hash, and while a batch is pending the host certifies exactly it. */
    predicate Linked(lib: Library) {
      && Chained(lib, genesis, log)
      && (|pending| > 0 ==> certifiedData == Certified(lib))
    }

    /** The history index is well formed for the ledger so far: every
        history strictly increasing, at most MAX_HISTORY long, and made of
        positions that exist. Kept as long as positions fit in a u32. */
    predicate Sound() {
      SoundTree(tree, Total()) && Total() <= U32_LIMIT
    }

    /** Committed and pending events together. */
    function Total(): nat {
      |log| + |pending|
    }

    /** Every event ever proposed, committed or not, by position. */
    function Events(): (r: seq<Data>)
      ensures |r| == Total()
    {
      DataOf(log) + pending
    }

    /** `length()`: committed plus pending, as a u32. */
    function Length(): (r: u32)
      ensures Total() < U32_LIMIT ==> r == Total()
    {
      ToU32(Total())
    }

    /** `get_previous_hash()`. */
    function PreviousHash(lib: Library): Hash {
      TailHash(lib, genesis, log)
    }

    /** What `set_certificate` publishes for the current pending batch. */
    function Certified(lib: Library): Hash {
      CertifiedValue(lib, pending, Length(), PreviousHash(lib))
    }

    /** `is_authorized`, the guard of every update endpoint. */
    predicate IsAuthorized(caller: Principal) {
      caller in auth.entries
    }
  }

  /** `canister_init(previous_hash)`: the installer becomes the only
      administrator, and the genesis hash is taken from the argument when it
      is the hex form of 32 bytes. */
  function Init(installer: Principal, arg: Option<string>): State {
    State([], [], InitialHash(arg), Empty(), Empty<u32>().Insert(installer, ADMIN), [])
  }

  /** `push_pending(data)`. */
  function Push(s: State, d: Data): State {
    s.(pending := s.pending + [d])
  }

  /** The position `add`, `remove`, `select` and `expand` return, `length()
      - 1` after the push, is the position of the new event: the old
      `length()`, even when it wraps. */
  lemma PushedIndex(s: State, d: Data)
    ensures ToU32(Push(s, d).Length() - 1) == s.Length()
  {
    PushIndex(s.Total());
  }

  /** `set_certificate()`: the host now holds the certified value of the
      pending batch. */
  function Certify(lib: Library, s: State): State {
    s.(certifiedData := s.Certified(lib))
  }

  // ------------------------------------------------------ what each message does
  //
  // `add`, `remove`, `select` and `expand` return `length() - 1` after their
  // push; the functions below give it as what it is, the old `length()`, and
  // the methods further down compute it the canister's way.

  /** `add(new_jurors, memo)`: propose an Add event and record it at once in
      the history of every listed juror; a juror whose history is full traps. */
  function AddSpec(lib: Library, s: State, caller: Principal, jurors: seq<Blob>, memo: Blob): (Result<u32>, State)
    requires s.tree.Valid()
  {
    if !s.IsAuthorized(caller) then (Err(Unauthorized), s)
    else
      var s1 := Push(s, Data(Kind.Add, jurors, None, 0, memo));
      var index := s.Length();
      match AddJurors(s1.tree, jurors, index)
      case Err(f) => (Err(f), s)
      case Ok(t) => (Ok(index), Certify(lib, s1.(tree := t)))
  }

  /** `remove(remove_jurors, memo)`: propose a Remove event and close the
      history of every listed juror that is active. */
  function RemoveSpec(lib: Library, s: State, caller: Principal, jurors: seq<Blob>, memo: Blob): (Result<u32>, State)
    requires s.tree.Valid()
  {
    if !s.IsAuthorized(caller) then (Err(Unauthorized), s)
    else
      var s1 := Push(s, Data(Kind.Remove, jurors, None, 0, memo));
      var index := s.Length();
      (Ok(index), Certify(lib, s1.(tree := RemoveJurors(s1.tree, jurors, index))))
  }

  /** The tail shared by `select` and `expand`: behind the guard, the event
      the message computed (or the trap it hit) is pushed at the old
      `length()` and the new batch is certified. */
  function Propose(lib: Library, s: State, caller: Principal, event: Result<Data>): (Result<u32>, State) {
    if !s.IsAuthorized(caller) then (Err(Unauthorized), s)
    else match event
    case Err(f) => (Err(f), s)
    case Ok(d) => (Ok(s.Length()), Certify(lib, Push(s, d)))
  }

  /** The event `select(index, count, memo)` proposes: `count` jurors drawn
      from the pool at `index` with the seed `raw_rand` returned (`None`
      when that call failed), recorded with the seed. */
  ghost function SelectEvent(lib: Library, s: State, index: u32, count: u32, memo: Blob, rawRand: Option<Blob>)
    : Result<Data>
    requires s.tree.Valid() && Fair(lib.uniform)
  {
    if rawRand.None? then Err(RandomnessUnavailable)
    else if |rawRand.value| != 32 then Err(MalformedSeed)
    else
      var seed: Hash := rawRand.value;
      match JuryOf(s.tree, index, count, seed, lib.uniform)
      case Err(f) => Err(f)
      case Ok(jury) => Ok(Data(Kind.Select, jury, Some(seed), 0, memo))
  }

  /** `select(index, count, memo)`. */
  ghost function SelectSpec(lib: Library, s: State, caller: Principal, index: u32, count: u32, memo: Blob,
                            rawRand: Option<Blob>): (Result<u32>, State)
    requires s.tree.Valid() && Fair(lib.uniform)
  {
    Propose(lib, s, caller, SelectEvent(lib, s, index, count, memo, rawRand))
  }

  /** The event `expand(index, count, memo)` proposes: the jury of the event
      at `index` redrawn with its own seed, `count` jurors larger, keeping
      only the jurors beyond the old jury's size. */
  ghost function ExpandEvent(lib: Library, s: State, index: u32, count: u32, memo: Blob): Result<Data>
    requires s.tree.Valid() && Fair(lib.uniform)
  {
    match GetBlock(s, index)
    case Err(f) => Err(f)
    case Ok(selected) =>
      var rand := selected.data.rand;
      if rand.None? then Err(MissingSeed)
      else if |rand.value| != 32 then Err(MalformedSeed)
      else
        var before := ToU32(|selected.data.jurors|);
        match JuryOf(s.tree, index, ToU32(before + count), rand.value, lib.uniform)
        case Err(f) => Err(f)
        case Ok(jury) =>
          if before > |jury| then Err(SliceOutOfRange)
          else Ok(Data(Kind.Expand, jury[before..], rand, 0, memo))
  }

  /** `expand(index, count, memo)`. */
  ghost function ExpandSpec(lib: Library, s: State, caller: Principal, index: u32, count: u32, memo: Blob)
    : (Result<u32>, State)
    requires s.tree.Valid() && Fair(lib.uniform)
  {
    Propose(lib, s, caller, ExpandEvent(lib, s, index, count, memo))
  }

  /** `commit(certificate)`: when the certificate certifies the tree of the
      pending batch for this canister, append the batch to the log, each
      block carrying the certificate, the hash-tree witness and the link to the
      tail of the log, and empty the batch. Returns the new `length()`, or
      `None` when nothing is pending. */
  function CommitSpec(lib: Library, canisterId: Blob, s: State, caller: Principal, certificate: Blob)
    : (Result<Option<u32>>, State)
  {
    if !s.IsAuthorized(caller) then (Err(Unauthorized), s)
    else if |s.pending| == 0 then (Ok(None), s)
    else
      var previousHash := s.PreviousHash(lib);
      var blockTree := BlockTreeOf(lib, s.pending, s.Length(), previousHash);
      var certified := lib.labeledHash(JURY_BLOCKS_LABEL, lib.rootHash(blockTree));
      match lib.lookupCertifiedData(certificate, canisterId)
      case None => (Err(CertificatePathMissing), s)
      case Some(found) =>
        if found != certified then (Err(CertifiedDataMismatch), s)
        else
          var hashTree := lib.labeledTree(JURY_BLOCKS_LABEL, blockTree);
          var s1 := s.(log := s.log + Batch(certificate, hashTree, s.pending, previousHash), pending := []);
          (Ok(Some(s1.Length())), s1)
  }

  /** `authorize(principal)`: make `principal` an administrator. */
  function AuthorizeSpec(s: State, caller: Principal, principal: Principal): (Result<()>, State)
    requires s.auth.Valid()
  {
    if !s.IsAuthorized(caller) then (Err(Unauthorized), s)
    else (Ok(()), s.(auth := s.auth.Insert(principal, ADMIN)))
  }

  /** `deauthorize(principal)`: remove `principal` from `AUTH`; removing a
      principal that is not there traps. */
  function DeauthorizeSpec(s: State, caller: Principal, principal: Principal): (Result<()>, State)
    requires s.auth.Valid()
  {
    if !s.IsAuthorized(caller) then (Err(Unauthorized), s)
    else if principal !in s.auth.entries then (Err(PrincipalNotFound), s)
    else (Ok(()), s.(auth := s.auth.Remove(principal)))
  }

  // ------------------------------------------------------------------ queries

  /** `get_block(index)`: a committed block, or a default block holding a
      pending event; beyond the pending batch it traps. */
  function GetBlock(s: State, index: u32): Result<Block> {
    var committed := ToU32(|s.log|);
    if index < committed then Ok(s.log[index])
    else if index - committed < |s.pending| then Ok(PendingBlock(s.pending[index - committed]))
    else Err(BlockOutOfRange)
  }

  /** `get_jurors(index)`. */
  function GetJurors(s: State, index: u32): Result<seq<Blob>> {
    match GetBlock(s, index)
    case Ok(b) => Ok(b.data.jurors)
    case Err(f) => Err(f)
  }

  /** `get_size(index)`. */
  function GetSize(s: State, index: u32): Result<u32> {
    match GetBlock(s, index)
    case Ok(b) => Ok(ToU32(|b.data.jurors|))
    case Err(f) => Err(f)
  }

  /** `get_pending()`. */
  function GetPending(s: State): u32 {
    ToU32(|s.pending|)
  }

  /** `get_certificate()`: the certificate the host offers for this message
      (`data_certificate()`, given as `host`), but only while a batch is
      pending. */
  function GetCertificate(s: State, host: Option<Blob>): Option<Blob> {
    if |s.pending| == 0 then None else host
  }

  /** `get_authorized()`: the administrators in key order. */
  function GetAuthorized(s: State): (r: seq<Blob>)
    requires s.Valid()
    ensures StrictlySorted(r)
    ensures forall p :: p in r <==> p in s.auth.entries
  {
    s.auth.keys
  }

  /** `get_pool(index, start, length)`: a slice of the pool at `index`;
      `start + length` wraps as a u32, and a slice out of range traps. */
  method GetPool(s: State, index: u32, start: u32, length: u32) returns (r: Result<seq<Blob>>)
    requires s.tree.Valid()
    ensures var pool := PoolAt(s.tree, index);
      var end := ToU32(start + length);
      if start <= end <= |pool| then r == Ok(pool[start..end]) else r == Err(SliceOutOfRange)
  {
    var pool := CollectPool(s.tree, index);
    var end := ToU32(start + length);
    if start > end || end > |pool| {
      return Err(SliceOutOfRange);
    }
    r := Ok(pool[start..end]);
  }

  /** `get_pool_size(index)`. */
  method GetPoolSize(s: State, index: u32) returns (n: u32)
    requires s.tree.Valid()
    ensures n == ToU32(|PoolAt(s.tree, index)|)
  {
    var pool := CollectPool(s.tree, index);
    n := ToU32(|pool|);
  }

  /** The position of the last occurrence of `x` in `xs`. */
  function LastIndex(xs: seq<Blob>, x: Blob): (i: nat)
    requires x in xs
    ensures i < |xs| && xs[i] == x
    ensures forall k :: i < k < |xs| ==> xs[k] != x
  {
    if xs[|xs| - 1] == x then |xs| - 1 else LastIndex(xs[..|xs| - 1], x)
  }

  /** The first loop of `find`: each listed juror mapped to its position,
      a later occurrence overwriting an earlier one. */
  method LastPositions(jurors: seq<Blob>) returns (m: map<Blob, u32>)
    requires |jurors| < U32_LIMIT
    ensures forall j :: j in m <==> j in jurors
    ensures forall j :: j in m ==> m[j] as int == LastIndex(jurors, j)
  {
    m := map[];
    for i := 0 to |jurors|
      invariant forall j :: j in m <==> j in jurors[..i]
      invariant forall j :: j in m ==> m[j] as int == LastIndex(jurors[..i], j)
    {
      assert jurors[..i + 1][..i] == jurors[..i];
      m := m[jurors[i] := i as u32];
    }
    assert jurors[..|jurors|] == jurors;
  }

  /** `find(index, jurors)`: for each listed juror, its position in the pool
      at `index`. The juror-to-position map keeps the last of repeated
      entries, so only the last occurrence of a juror is answered. */
  method Find(s: State, index: u32, jurors: seq<Blob>) returns (r: seq<Option<u32>>)
    requires s.tree.Valid()
    requires |jurors| < U32_LIMIT
    ensures |r| == |jurors|
    ensures forall k :: 0 <= k < |jurors| ==> r[k] == FindEntry(PoolAt(s.tree, index), jurors, k)
  {
    var pool := CollectPool(s.tree, index);
    PoolSorted(s.tree, index);
    assert forall i :: 0 <= i < |pool| ==> pool[i] !in pool[..i];
    var m := LastPositions(jurors);
    r := seq(|jurors|, _ => None);
    for i := 0 to |pool|
      invariant |r| == |jurors|
      invariant forall k :: 0 <= k < |jurors| ==> r[k] == FindEntry(pool[..i], jurors, k)
    {
      var j := pool[i];
      if j in m {
        var k := m[j];
        r := r[k := Some(ToU32(i))];
      }
      forall k | 0 <= k < |jurors| ensures r[k] == FindEntry(pool[..i + 1], jurors, k) {
        FindEntryStep(pool, i, jurors, k);
      }
    }
    assert pool[..|pool|] == pool;
  }

  /** The answer of `find` for entry `k` of `jurors` over the pool `pool`. */
  function FindEntry(pool: seq<Blob>, jurors: seq<Blob>, k: nat): Option<u32>
    requires k < |jurors|
  {
    if jurors[k] in pool && LastIndex(jurors, jurors[k]) == k then Some(ToU32(LastIndex(pool, jurors[k])))
    else None
  }

  /** One more pool member answers the last occurrence of that member
      among the jurors and no other entry. */
  lemma FindEntryStep(pool: seq<Blob>, i: nat, jurors: seq<Blob>, k: nat)
    requires i < |pool| && k < |jurors| && pool[i] !in pool[..i]
    ensures FindEntry(pool[..i + 1], jurors, k)
      == if jurors[k] == pool[i] && LastIndex(jurors, jurors[k]) == k then Some(ToU32(i))
         else FindEntry(pool[..i], jurors, k)
  {
    assert pool[..i + 1] == pool[..i] + [pool[i]];
    if jurors[k] in pool[..i] {
      assert jurors[k] != pool[i];
    }
  }

  // ---------------------------------------------- how each message does it

  /** `set_certificate()` without its host call: build the block tree of
      the pending batch and hand its labeled root hash to the host. */
  method SetCertificate(lib: Library, s: State) returns (s': State)
    ensures s' == Certify(lib, s)
  {
    var blockTree := BuildTree(lib, s.pending, s.Length(), s.PreviousHash(lib));
    var certified := lib.labeledHash(JURY_BLOCKS_LABEL, lib.rootHash(blockTree));
    s' := s.(certifiedData := certified);
  }

  /** The loop of `add` over its jurors, updating `TREE` one juror at a
      time; a full history traps. */
  method InsertHistories(t0: PoolTree, jurors: seq<Blob>, index: u32) returns (r: Result<PoolTree>)
    requires t0.Valid()
    ensures r == AddJurors(t0, jurors, index)
  {
    var t := t0;
    for i := 0 to |jurors|
      invariant AddJurors(t0, jurors[..i], index) == Ok(t)
    {
      assert jurors[..i + 1][..i] == jurors[..i];
      var j := jurors[i];
      if j in t.entries {
        var h := t.entries[j];
        if |h| % 2 == 0 {
          if |h| >= MAX_HISTORY {
            AddJurorsTrap(t0, jurors, i + 1, index);
            return Err(MaxHistoryExceeded);
          }
          t := t.Insert(j, h + [index]);
        }
      } else {
        t := t.Insert(j, [index]);
      }
    }
    assert jurors[..|jurors|] == jurors;
    r := Ok(t);
  }

  /** The loop of `remove` over its jurors. */
  method CloseHistories(t0: PoolTree, jurors: seq<Blob>, index: u32) returns (t: PoolTree)
    requires t0.Valid()
    ensures t == RemoveJurors(t0, jurors, index)
  {
    t := t0;
    for i := 0 to |jurors|
      invariant RemoveJurors(t0, jurors[..i], index) == t
    {
      assert jurors[..i + 1][..i] == jurors[..i];
      var j := jurors[i];
      if j in t.entries {
        var h := t.entries[j];
        if |h| % 2 == 1 {
          t := t.Insert(j, h + [index]);
        }
      }
    }
    assert jurors[..|jurors|] == jurors;
  }

  method AddStep(lib: Library, s: State, caller: Principal, jurors: seq<Blob>, memo: Blob)
    returns (r: Result<u32>, s': State)
    requires s.tree.Valid()
    ensures (r, s') == AddSpec(lib, s, caller, jurors, memo)
  {
    if !s.IsAuthorized(caller) {
      return Err(Unauthorized), s;
    }
    var d := Data(Kind.Add, jurors, None, 0, memo);
    var s1 := Push(s, d);
    var index := ToU32(s1.Length() - 1);
    PushedIndex(s, d);
    var t := InsertHistories(s1.tree, jurors, index);
    if t.Err? {
      return Err(t.fault), s;
    }
    s' := SetCertificate(lib, s1.(tree := t.value));
    r := Ok(index);
  }

  method RemoveStep(lib: Library, s: State, caller: Principal, jurors: seq<Blob>, memo: Blob)
    returns (r: Result<u32>, s': State)
    requires s.tree.Valid()
    ensures (r, s') == RemoveSpec(lib, s, caller, jurors, memo)
  {
    if !s.IsAuthorized(caller) {
      return Err(Unauthorized), s;
    }
    var d := Data(Kind.Remove, jurors, None, 0, memo);
    var s1 := Push(s, d);
    var index := ToU32(s1.Length() - 1);
    PushedIndex(s, d);
    var t := CloseHistories(s1.tree, jurors, index);
    s' := SetCertificate(lib, s1.(tree := t));
    r := Ok(index);
  }

  /** The part of `select` that builds its event: the seed check and
      `make_jury`. */
  method SelectData(lib: Library, s: State, index: u32, count: u32, memo: Blob, rawRand: Option<Blob>)
    returns (e: Result<Data>)
    requires s.tree.Valid() && Fair(lib.uniform)
    ensures e == SelectEvent(lib, s, index, count, memo, rawRand)
  {
    if rawRand.None? {
      return Err(RandomnessUnavailable);
    }
    if |rawRand.value| != 32 {
      return Err(MalformedSeed);
    }
    var seed: Hash := rawRand.value;
    var jury := MakeJury(s.tree, index, count, seed, lib.uniform);
    if jury.Err? {
      return Err(jury.fault);
    }
    e := Ok(Data(Kind.Select, jury.value, Some(seed), 0, memo));
  }

  /** The part of `expand` that builds its event: `get_block`, the seed of
      the old event, `make_jury` of the larger size and the slice past the
      old size. */
  method ExpandData(lib: Library, s: State, index: u32, count: u32, memo: Blob) returns (e: Result<Data>)
    requires s.tree.Valid() && Fair(lib.uniform)
    ensures e == ExpandEvent(lib, s, index, count, memo)
  {
    var selected := GetBlock(s, index);
    if selected.Err? {
      return Err(selected.fault);
    }
    var rand := selected.value.data.rand;
    if rand.None? {
      return Err(MissingSeed);
    }
    if |rand.value| != 32 {
      return Err(MalformedSeed);
    }
    var seed: Hash := rand.value;
    var before := ToU32(|selected.value.data.jurors|);
    var jury := MakeJury(s.tree, index, ToU32(before + count), seed, lib.uniform);
    if jury.Err? {
      return Err(jury.fault);
    }
    if before > |jury.value| {
      return Err(SliceOutOfRange);
    }
    e := Ok(Data(Kind.Expand, jury.value[before..], rand, 0, memo));
  }

  /** `push_pending`, `set_certificate` and `length() - 1`, the tail of
      `select` and `expand`. */
  method ProposeStep(lib: Library, s: State, caller: Principal, event: Result<Data>) returns (r: Result<u32>, s': State)
    requires s.IsAuthorized(caller)
    ensures (r, s') == Propose(lib, s, caller, event)
  {
    if event.Err? {
      return Err(event.fault), s;
    }
    var d := event.value;
    s' := SetCertificate(lib, Push(s, d));
    PushedIndex(s, d);
    r := Ok(ToU32(s'.Length() - 1));
  }

  method SelectStep(lib: Library, s: State, caller: Principal, index: u32, count: u32, memo: Blob,
                    rawRand: Option<Blob>) returns (r: Result<u32>, s': State)
    requires s.tree.Valid() && Fair(lib.uniform)
    ensures (r, s') == SelectSpec(lib, s, caller, index, count, memo, rawRand)
  {
    if !s.IsAuthorized(caller) {
      return Err(Unauthorized), s;
    }
    var e := SelectData(lib, s, index, count, memo, rawRand);
    r, s' := ProposeStep(lib, s, caller, e);
  }

  method ExpandStep(lib: Library, s: State, caller: Principal, index: u32, count: u32, memo: Blob)
    returns (r: Result<u32>, s': State)
    requires s.tree.Valid() && Fair(lib.uniform)
    ensures (r, s') == ExpandSpec(lib, s, caller, index, count, memo)
  {
    if !s.IsAuthorized(caller) {
      return Err(Unauthorized), s;
    }
    var e := ExpandData(lib, s, index, count, memo);
    r, s' := ProposeStep(lib, s, caller, e);
  }

  method CommitStep(lib: Library, canisterId: Blob, s: State, caller: Principal, certificate: Blob)
    returns (r: Result<Option<u32>>, s': State)
    ensures (r, s') == CommitSpec(lib, canisterId, s, caller, certificate)
  {
    if !s.IsAuthorized(caller) {
      return Err(Unauthorized), s;
    }
    var data := s.pending;
    if |data| == 0 {
      return Ok(None), s;
    }
    var previousHash := s.PreviousHash(lib);
    var blockTree := BuildTree(lib, data, s.Length(), previousHash);
    var certified := lib.labeledHash(JURY_BLOCKS_LABEL, lib.rootHash(blockTree));
    var found := lib.lookupCertifiedData(certificate, canisterId);
    if found.None? {
      return Err(CertificatePathMissing), s;
    }
    if found.value != certified {
      return Err(CertifiedDataMismatch), s;
    }
    var hashTree := lib.labeledTree(JURY_BLOCKS_LABEL, blockTree);
    var log := s.log;
    for i := 0 to |data|
      invariant log == s.log + Batch(certificate, hashTree, data[..i], previousHash)
    {
      assert data[..i + 1][..i] == data[..i];
      log := log + [Block(certificate, hashTree, data[i], previousHash)];
    }
    assert data[..|data|] == data;
    s' := s.(log := log, pending := []);
    r := Ok(Some(s'.Length()));
  }
}
