/** What each message of the canister guarantees: the invariants it keeps
    (`Valid`, `Linked`, and `Sound` while positions fit in a u32), and its
    effect on the ledger of events, the history index, the pool and the
    administrators. */
module Invariants {
  import opened Bytes
  import opened Outcomes
  import opened OrderedMaps
  import opened Histories
  import opened Pool
  import opened Sampler
  import opened Selection
  import opened Ledger
  import opened Hex
  import opened Canister

  /** Nothing is ever certified or committed at installation, and the
      installer is the only administrator. */
  lemma InitFacts(lib: Library, installer: Principal, arg: Option<string>)
    ensures var s := Init(installer, arg);
      && s.Valid() && s.Linked(lib) && s.Sound()
      && s.Events() == [] && s.genesis == InitialHash(arg)
      && forall p: Principal :: s.IsAuthorized(p) <==> p == installer
  {
    var s := Init(installer, arg);
    assert s.auth.entries == map[installer := ADMIN];
  }

  /** A later bound keeps a sound index sound. */
  lemma SoundTreeLater(t: PoolTree, bound: int, bound': int)
    requires SoundTree(t, bound) && bound <= bound'
    ensures SoundTree(t, bound')
  {
    forall k | k in t.entries ensures WellFormed(t.entries[k], bound') {
      assert WellFormed(t.entries[k], bound);
    }
  }

  /** Appending one event extends the ledger of events by it. */
  lemma PushEvents(s: State, d: Data)
    ensures Push(s, d).Events() == s.Events() + [d]
    ensures Push(s, d).Total() == s.Total() + 1
  {
  }

  // ------------------------------------------------------------ add, remove

  /** `add` rejects a caller that is not an administrator, traps exactly
      when a listed juror is inactive with a full history, and otherwise
      appends its event at the old `length()`, gives every listed juror its
      `Added` history and every other juror its old one, and so leaves the
      pool at every earlier position as it was. A rejected or trapped
      message changes nothing. */
  lemma AddEffects(lib: Library, s: State, caller: Principal, jurors: seq<Blob>, memo: Blob)
    requires s.Valid()
    ensures var (r, s') := AddSpec(lib, s, caller, jurors, memo);
      && (!s.IsAuthorized(caller) ==> r == Err(Unauthorized))
      && (s.IsAuthorized(caller) ==>
            (r.Err? <==> exists j :: j in jurors && Full(s.tree, j))
            && (r.Err? ==> r == Err(MaxHistoryExceeded)))
      && (r.Err? ==> s' == s)
      && (r.Ok? ==>
            var d := Data(Kind.Add, jurors, None, 0, memo);
            && r.value == s.Length()
            && s'.Events() == s.Events() + [d]
            && s'.tree == AddJurors(s.tree, jurors, s.Length()).value
            && s'.tree.entries.Keys == s.tree.entries.Keys + (set j | j in jurors)
            && (forall k :: k in s'.tree.entries ==>
                  s'.tree.entries[k] == if k in jurors then Added(s.tree, k, r.value) else s.tree.entries[k])
            && s'.log == s.log && s'.genesis == s.genesis && s'.auth == s.auth
            && forall p :: p < r.value ==> PoolAt(s'.tree, p) == PoolAt(s.tree, p))
  {
    var d := Data(Kind.Add, jurors, None, 0, memo);
    PushedIndex(s, d);
    PushEvents(s, d);
    AddJurorsEffect(s.tree, jurors, s.Length());
    var (r, s') := AddSpec(lib, s, caller, jurors, memo);
    if r.Ok? {
      forall p | p < r.value ensures PoolAt(s'.tree, p) == PoolAt(s.tree, p) {
        AddJurorsKeepsPool(s.tree, jurors, r.value, p);
      }
    }
  }

  /** The new state of a proposal: the event appended, the index updated,
      and the new batch certified. */
  lemma ProposalValid(lib: Library, s: State, d: Data, t: PoolTree)
    requires s.Valid() && t.Valid()
    ensures Certify(lib, Push(s, d).(tree := t)).Valid()
  {
  }

  lemma ProposalLinked(lib: Library, s: State, d: Data, t: PoolTree)
    requires Chained(lib, s.genesis, s.log)
    ensures Certify(lib, Push(s, d).(tree := t)).Linked(lib)
  {
  }

  /** `add` keeps the invariants: the host certifies the new batch. */
  lemma AddPreserves(lib: Library, s: State, caller: Principal, jurors: seq<Blob>, memo: Blob)
    requires s.Valid() && s.Linked(lib)
    ensures var s' := AddSpec(lib, s, caller, jurors, memo).1;
      s'.Valid() && s'.Linked(lib)
  {
    var d := Data(Kind.Add, jurors, None, 0, memo);
    var a := AddJurors(s.tree, jurors, s.Length());
    if s.IsAuthorized(caller) && a.Ok? {
      ProposalValid(lib, s, d, a.value);
      ProposalLinked(lib, s, d, a.value);
    }
  }

  /** `add` keeps the index sound while positions fit in a u32. */
  lemma AddKeepsSound(lib: Library, s: State, caller: Principal, jurors: seq<Blob>, memo: Blob)
    requires s.Valid() && s.Sound()
    ensures var s' := AddSpec(lib, s, caller, jurors, memo).1;
      s'.Total() <= U32_LIMIT ==> s'.Sound()
  {
    var a := AddJurors(s.tree, jurors, s.Length());
    if s.IsAuthorized(caller) && a.Ok? && s.Total() < U32_LIMIT {
      AddJurorsSound(s.tree, jurors, s.Length());
    }
  }

  /** `remove` rejects a caller that is not an administrator and otherwise
      always succeeds: it appends its event at the old `length()`, closes at
      that position the history of every listed active juror, leaves every
      other history alone, and so leaves the pool at every earlier position
      as it was. */
  lemma RemoveEffects(lib: Library, s: State, caller: Principal, jurors: seq<Blob>, memo: Blob)
    requires s.Valid()
    ensures var (r, s') := RemoveSpec(lib, s, caller, jurors, memo);
      && (r.Ok? <==> s.IsAuthorized(caller))
      && (r.Err? ==> r == Err(Unauthorized) && s' == s)
      && (r.Ok? ==>
            var d := Data(Kind.Remove, jurors, None, 0, memo);
            && r.value == s.Length()
            && s'.Events() == s.Events() + [d]
            && s'.tree == RemoveJurors(s.tree, jurors, s.Length())
            && s'.tree.entries.Keys == s.tree.entries.Keys
            && (forall k :: k in s.tree.entries ==>
                  s'.tree.entries[k] == if k in jurors then Removed(s.tree, k, r.value) else s.tree.entries[k])
            && s'.log == s.log && s'.genesis == s.genesis && s'.auth == s.auth
            && forall p :: p < r.value ==> PoolAt(s'.tree, p) == PoolAt(s.tree, p))
  {
    var d := Data(Kind.Remove, jurors, None, 0, memo);
    PushedIndex(s, d);
    PushEvents(s, d);
    RemoveJurorsEffect(s.tree, jurors, s.Length());
    var (r, s') := RemoveSpec(lib, s, caller, jurors, memo);
    if r.Ok? {
      forall p | p < r.value ensures PoolAt(s'.tree, p) == PoolAt(s.tree, p) {
        RemoveJurorsKeepsPool(s.tree, jurors, r.value, p);
      }
    }
  }

  lemma RemovePreserves(lib: Library, s: State, caller: Principal, jurors: seq<Blob>, memo: Blob)
    requires s.Valid() && s.Linked(lib)
    ensures var s' := RemoveSpec(lib, s, caller, jurors, memo).1;
      s'.Valid() && s'.Linked(lib)
  {
    if s.IsAuthorized(caller) {
      var d := Data(Kind.Remove, jurors, None, 0, memo);
      ProposalValid(lib, s, d, RemoveJurors(s.tree, jurors, s.Length()));
      ProposalLinked(lib, s, d, RemoveJurors(s.tree, jurors, s.Length()));
    }
  }

  lemma RemoveKeepsSound(lib: Library, s: State, caller: Principal, jurors: seq<Blob>, memo: Blob)
    requires s.Valid() && s.Sound()
    ensures var s' := RemoveSpec(lib, s, caller, jurors, memo).1;
      s'.Total() <= U32_LIMIT ==> s'.Sound()
  {
    if s.IsAuthorized(caller) && s.Total() < U32_LIMIT {
      RemoveJurorsSound(s.tree, jurors, s.Length());
    }
  }

  // ---------------------------------------------------------- select, expand

  /** The tail of `select` and `expand`: it fails exactly when the guard
      rejects the caller or the event could not be built, and then changes
      nothing; otherwise the event lands at the old `length()` and nothing
      but the pending batch and the certified data changes. */
  lemma ProposeEffects(lib: Library, s: State, caller: Principal, event: Result<Data>)
    ensures var (r, s') := Propose(lib, s, caller, event);
      && (r.Ok? <==> s.IsAuthorized(caller) && event.Ok?)
      && (!s.IsAuthorized(caller) ==> r == Err(Unauthorized))
      && (s.IsAuthorized(caller) && event.Err? ==> r == Err(event.fault))
      && (r.Err? ==> s' == s)
      && (r.Ok? ==>
            && r.value == s.Length()
            && s'.pending == s.pending + [event.value]
            && s'.Events() == s.Events() + [event.value]
            && s'.tree == s.tree && s'.log == s.log && s'.genesis == s.genesis && s'.auth == s.auth)
  {
    if event.Ok? {
      PushEvents(s, event.value);
    }
  }

  /** The tail of `select` and `expand` keeps the invariants, and keeps the
      index sound while positions fit in a u32. */
  lemma ProposePreserves(lib: Library, s: State, caller: Principal, event: Result<Data>)
    requires s.Valid() && s.Linked(lib)
    ensures var s' := Propose(lib, s, caller, event).1;
      && s'.Valid() && s'.Linked(lib)
      && (s.Sound() && s'.Total() <= U32_LIMIT ==> s'.Sound())
  {
    if s.IsAuthorized(caller) && event.Ok? {
      var d := event.value;
      assert Push(s, d).(tree := s.tree) == Push(s, d);
      ProposalValid(lib, s, d, s.tree);
      ProposalLinked(lib, s, d, s.tree);
      if s.Sound() {
        SoundTreeLater(s.tree, s.Total(), s.Total() + 1);
      }
    }
  }

  /** The event of `select`: it fails when the randomness is unavailable or
      malformed and exactly when the pool at `index` is empty or smaller
      than the jury; otherwise it is a Select event holding the seed and
      `count` different jurors, each active at `index`. */
  lemma SelectEventFacts(lib: Library, s: State, index: u32, count: u32, memo: Blob, rawRand: Option<Blob>)
    requires s.tree.Valid() && Fair(lib.uniform)
    ensures var e := SelectEvent(lib, s, index, count, memo, rawRand);
      var pool := PoolAt(s.tree, index);
      && (rawRand.None? ==> e == Err(RandomnessUnavailable))
      && (rawRand.Some? && |rawRand.value| != 32 ==> e == Err(MalformedSeed))
      && (rawRand.Some? && |rawRand.value| == 32 ==> (e.Err? <==> count > |pool| || |pool| == 0))
      && (e.Ok? ==>
            var d := e.value;
            && d.kind == Kind.Select && d.rand == rawRand && d.memo == memo && d.jurors_index == 0
            && |d.jurors| == count && Distinct(d.jurors)
            && forall x :: x in d.jurors ==> x in s.tree.entries && ActiveAt(s.tree.entries[x], index))
  {
    if rawRand.Some? && |rawRand.value| == 32 {
      JuryShape(s.tree, index, count, rawRand.value, lib.uniform);
    }
  }

  /** When `expand` of the event at `index` builds its event: exactly when
      that block exists and carries a 32-byte seed, and the pool at `index`
      is non-empty and holds at least the larger size, which (wrapping as a
      u32) is not below the old size. */
  lemma ExpandEventDefined(lib: Library, s: State, index: u32, count: u32, memo: Blob)
    requires s.tree.Valid() && Fair(lib.uniform)
    ensures var e := ExpandEvent(lib, s, index, count, memo);
      var b := GetBlock(s, index);
      && (b.Err? ==> e == Err(BlockOutOfRange))
      && (b.Ok? && b.value.data.rand.None? ==> e == Err(MissingSeed))
      && (b.Ok? && b.value.data.rand.Some? && |b.value.data.rand.value| != 32 ==> e == Err(MalformedSeed))
      && (e.Ok? <==>
            && b.Ok? && b.value.data.rand.Some? && |b.value.data.rand.value| == 32
            && var before := ToU32(|b.value.data.jurors|);
            var total := ToU32(before + count);
            var pool := PoolAt(s.tree, index);
            before <= total <= |pool| && |pool| > 0)
  {
    var b := GetBlock(s, index);
    if b.Ok? && b.value.data.rand.Some? && |b.value.data.rand.value| == 32 {
      var before := ToU32(|b.value.data.jurors|);
      JuryShape(s.tree, index, ToU32(before + count), b.value.data.rand.value, lib.uniform);
    }
  }

  /** An unfolding helper for `RecordedExpansion`, not a property of its own.
      A built `expand` event holds the jurors past the old size `before`
      of the jury that the pool at `index` and the old event's seed give for
      the new size `total`, the u32 sum `before + count`. */
  lemma ExpandEventValue(lib: Library, s: State, index: u32, count: u32, memo: Blob, b: Block,
                         seed: Hash, before: nat, total: nat)
    requires s.tree.Valid() && Fair(lib.uniform)
    requires GetBlock(s, index) == Ok(b) && b.data.rand == Some(seed)
    requires before == ToU32(|b.data.jurors|) && total == ToU32(before + count)
    requires ExpandEvent(lib, s, index, count, memo).Ok?
    ensures JuryOf(s.tree, index, total, seed, lib.uniform).Ok?
    ensures before <= |JuryOf(s.tree, index, total, seed, lib.uniform).value|
    ensures ExpandEvent(lib, s, index, count, memo).value.jurors
            == JuryOf(s.tree, index, total, seed, lib.uniform).value[before..]
  {
  }

  /** `expand(index, count)` keeps the jury recorded at `index` when that
      jury is the one the pool at `index` and the recorded seed give for its
      size: it then succeeds exactly when the larger jury fits in the pool
      (and its size in a u32), and adds `count` jurors that complete the
      recorded ones to the jury of the larger size, none of them already on
      the jury. `expand` draws from the pool at the position of the event it
      expands, not at the position that event drew from, so the condition
      can fail when `select` drew from an earlier pool; see
      `ExpandRedraw.RepeatedJuror`. */
  lemma ExpandKeepsRecorded(lib: Library, s: State, index: u32, count: u32, memo: Blob, b: Block, seed: Hash)
    requires s.tree.Valid() && Fair(lib.uniform)
    requires GetBlock(s, index) == Ok(b) && b.data.rand == Some(seed)
    requires JuryOf(s.tree, index, ToU32(|b.data.jurors|), seed, lib.uniform) == Ok(b.data.jurors)
    ensures ExpandEvent(lib, s, index, count, memo).Ok?
        <==> |b.data.jurors| + count <= |PoolAt(s.tree, index)| && |b.data.jurors| + count < U32_LIMIT
    ensures ExpandEvent(lib, s, index, count, memo).Ok? ==>
      var added := ExpandEvent(lib, s, index, count, memo).value.jurors;
      && |added| == count
      && JuryOf(s.tree, index, |b.data.jurors| + count, seed, lib.uniform) == Ok(b.data.jurors + added)
      && forall x :: x in added ==> x !in b.data.jurors
  {
    JuryShape(s.tree, index, ToU32(|b.data.jurors|), seed, lib.uniform);
    var before := |b.data.jurors|;
    assert ToU32(before) == before;
    ExpandEventDefined(lib, s, index, count, memo);
    if ExpandEvent(lib, s, index, count, memo).Ok? {
      RecordedExpansion(lib, s, index, count, memo, b, seed);
    } else if before + count < U32_LIMIT {
      assert ToU32(before + count) == before + count;
    }
  }

  /** The successful case of `ExpandKeepsRecorded`. */
  lemma RecordedExpansion(lib: Library, s: State, index: u32, count: u32, memo: Blob, b: Block, seed: Hash)
    requires s.tree.Valid() && Fair(lib.uniform)
    requires GetBlock(s, index) == Ok(b) && b.data.rand == Some(seed) && |b.data.jurors| < U32_LIMIT
    requires JuryOf(s.tree, index, |b.data.jurors|, seed, lib.uniform) == Ok(b.data.jurors)
    requires ExpandEvent(lib, s, index, count, memo).Ok?
    requires |b.data.jurors| + count < U32_LIMIT
    ensures var added := ExpandEvent(lib, s, index, count, memo).value.jurors;
      && |added| == count
      && JuryOf(s.tree, index, |b.data.jurors| + count, seed, lib.uniform) == Ok(b.data.jurors + added)
      && forall x :: x in added ==> x !in b.data.jurors
  {
    var before := |b.data.jurors|;
    var total := before + count;
    assert ToU32(before) == before && ToU32(total) == total;
    ExpandEventValue(lib, s, index, count, memo, b, seed, before, total);
    var whole := JuryOf(s.tree, index, total, seed, lib.uniform).value;
    RecordedTail(s.tree, index, b.data.jurors, total, whole, seed, lib.uniform);
  }

  // ------------------------------------------------------------ commit

  /** `commit` rejects a caller that is not an administrator, does nothing
      when no batch is pending, and otherwise accepts the certificate
      exactly when it certifies, for this canister, the value the host was
      last handed: the missing path and the mismatch are the two traps. */
  lemma CommitAccepts(lib: Library, canisterId: Blob, s: State, caller: Principal, certificate: Blob)
    requires s.Linked(lib)
    ensures var (r, s') := CommitSpec(lib, canisterId, s, caller, certificate);
      var found := lib.lookupCertifiedData(certificate, canisterId);
      && (!s.IsAuthorized(caller) ==> r == Err(Unauthorized))
      && (s.IsAuthorized(caller) && |s.pending| == 0 ==> r == Ok(None) && s' == s)
      && (s.IsAuthorized(caller) && |s.pending| > 0 ==>
            && (r.Ok? <==> found == Some(s.certifiedData))
            && (found.None? ==> r == Err(CertificatePathMissing))
            && (found.Some? && found.value != s.certifiedData ==> r == Err(CertifiedDataMismatch)))
      && (r.Err? ==> s' == s)
  {
  }

  /** The hash-tree witness `commit` stores in every block of the batch. */
  function Witness(lib: Library, s: State): Blob {
    lib.labeledTree(JURY_BLOCKS_LABEL, BlockTreeOf(lib, s.pending, s.Length(), s.PreviousHash(lib)))
  }

  /** An unfolding helper for `CommitEffects`, not a property of its own:
      the state an accepted `commit` of a non-empty batch leaves. */
  lemma CommitOk(lib: Library, canisterId: Blob, s: State, caller: Principal, certificate: Blob)
    requires CommitSpec(lib, canisterId, s, caller, certificate).0.Ok? && |s.pending| > 0
    ensures var (r, s') := CommitSpec(lib, canisterId, s, caller, certificate);
      && s' == s.(log := s.log + Batch(certificate, Witness(lib, s), s.pending, s.PreviousHash(lib)), pending := [])
      && r == Ok(Some(s'.Length()))
  {
  }

  /** A state whose ledger fields agree with a linked state is linked. */
  lemma SameLedgerLinked(lib: Library, s: State, s': State)
    requires s.Linked(lib)
    requires s'.log == s.log && s'.pending == s.pending && s'.genesis == s.genesis && s'.certifiedData == s.certifiedData
    ensures s'.Linked(lib)
  {
  }

  /** Adding an administrator keeps the state well formed. */
  lemma AdminAddedValid(s: State, principal: Principal)
    requires s.Valid()
    ensures s.(auth := s.auth.Insert(principal, ADMIN)).Valid()
  {
  }

  /** A state with the index and administrators of a well-formed state is
      well formed. */
  lemma SameShapeValid(s: State, s': State)
    requires s.Valid() && s'.tree == s.tree && s'.auth == s.auth
    ensures s'.Valid()
  {
  }

  /** An index left unchanged over the same number of events stays sound. */
  lemma SameIndexSound(s: State, s': State)
    requires s.Sound() && s'.tree == s.tree && s'.Total() == s.Total()
    ensures s'.Sound()
  {
  }

  /** An accepted `commit` moves the pending batch to the log: the events
      keep their positions, each new block carries the certificate, the
      witness of the batch's tree and the link to the old tail of the log,
      and the new `length()` is returned. */
  lemma CommitEffects(lib: Library, canisterId: Blob, s: State, caller: Principal, certificate: Blob)
    requires CommitSpec(lib, canisterId, s, caller, certificate).0.Ok?
    requires |s.pending| > 0
    ensures var (r, s') := CommitSpec(lib, canisterId, s, caller, certificate);
      && r == Ok(Some(s'.Length()))
      && s'.pending == [] && s'.Events() == s.Events() && s'.Total() == s.Total()
      && s'.tree == s.tree && s'.auth == s.auth && s'.genesis == s.genesis
      && s'.certifiedData == s.certifiedData
      && s'.log[..|s.log|] == s.log
      && forall i :: |s.log| <= i < |s'.log| ==>
           && s'.log[i].certificate == certificate
           && s'.log[i].tree == Witness(lib, s)
           && s'.log[i].previous_hash == s.PreviousHash(lib)
           && s'.log[i].data == s.pending[i - |s.log|]
  {
    CommitOk(lib, canisterId, s, caller, certificate);
    DataOfBatch(s.log, certificate, Witness(lib, s), s.pending, s.PreviousHash(lib));
  }

  /** `commit` keeps the invariants: the appended batch links to the old
      tail, so the log stays a hash chain. */
  lemma CommitPreserves(lib: Library, canisterId: Blob, s: State, caller: Principal, certificate: Blob)
    requires s.Valid() && s.Linked(lib)
    ensures var s' := CommitSpec(lib, canisterId, s, caller, certificate).1;
      s'.Valid() && s'.Linked(lib)
  {
    var (r, s') := CommitSpec(lib, canisterId, s, caller, certificate);
    if r.Ok? && |s.pending| > 0 {
      CommitOk(lib, canisterId, s, caller, certificate);
      ChainedBatch(lib, s.genesis, s.log, certificate, Witness(lib, s), s.pending);
      SameShapeValid(s, s');
    }
  }

  /** `commit` keeps the index sound: no event is added. */
  lemma CommitKeepsSound(lib: Library, canisterId: Blob, s: State, caller: Principal, certificate: Blob)
    requires s.Sound()
    ensures CommitSpec(lib, canisterId, s, caller, certificate).1.Sound()
  {
    var (r, s') := CommitSpec(lib, canisterId, s, caller, certificate);
    if r.Ok? && |s.pending| > 0 {
      CommitOk(lib, canisterId, s, caller, certificate);
      SameIndexSound(s, s');
    }
  }

  // ------------------------------------------------------------ authorization

  /** `authorize` by an administrator adds `principal` to the administrators
      and changes nothing else; by anyone else it is rejected. */
  lemma AuthorizeEffects(s: State, caller: Principal, principal: Principal)
    requires s.Valid()
    ensures var (r, s') := AuthorizeSpec(s, caller, principal);
      && (r.Ok? <==> s.IsAuthorized(caller))
      && (r.Err? ==> r == Err(Unauthorized) && s' == s)
      && (r.Ok? ==>
            && (forall p: Principal :: s'.IsAuthorized(p) <==> s.IsAuthorized(p) || p == principal)
            && s' == s.(auth := s'.auth))
  {
  }

  /** `deauthorize` by an administrator traps when `principal` is not an
      administrator, and otherwise removes it and changes nothing else. */
  lemma DeauthorizeEffects(s: State, caller: Principal, principal: Principal)
    requires s.Valid()
    ensures var (r, s') := DeauthorizeSpec(s, caller, principal);
      && (!s.IsAuthorized(caller) ==> r == Err(Unauthorized))
      && (s.IsAuthorized(caller) ==> (r == Err(PrincipalNotFound) <==> !s.IsAuthorized(principal)))
      && (r.Ok? <==> s.IsAuthorized(caller) && s.IsAuthorized(principal))
      && (r.Err? ==> s' == s)
      && (r.Ok? ==>
            && (forall p: Principal :: s'.IsAuthorized(p) <==> s.IsAuthorized(p) && p != principal)
            && s' == s.(auth := s'.auth))
  {
  }

  /** `authorize` keeps the invariants. */
  lemma AuthorizePreserves(lib: Library, s: State, caller: Principal, principal: Principal)
    requires s.Valid() && s.Linked(lib)
    ensures var s' := AuthorizeSpec(s, caller, principal).1;
      s'.Valid() && s'.Linked(lib)
  {
    SameLedgerLinked(lib, s, AuthorizeSpec(s, caller, principal).1);
    if s.IsAuthorized(caller) {
      AdminAddedValid(s, principal);
    }
  }

  /** `authorize` keeps the index sound. */
  lemma AuthorizeKeepsSound(s: State, caller: Principal, principal: Principal)
    requires s.Valid() && s.Sound()
    ensures AuthorizeSpec(s, caller, principal).1.Sound()
  {
    SameIndexSound(s, AuthorizeSpec(s, caller, principal).1);
  }

  /** `deauthorize` keeps the invariants. */
  lemma DeauthorizePreserves(lib: Library, s: State, caller: Principal, principal: Principal)
    requires s.Valid() && s.Linked(lib)
    ensures var s' := DeauthorizeSpec(s, caller, principal).1;
      s'.Valid() && s'.Linked(lib)
  {
    SameLedgerLinked(lib, s, DeauthorizeSpec(s, caller, principal).1);
  }

  /** `deauthorize` keeps the index sound. */
  lemma DeauthorizeKeepsSound(s: State, caller: Principal, principal: Principal)
    requires s.Valid() && s.Sound()
    ensures DeauthorizeSpec(s, caller, principal).1.Sound()
  {
    SameIndexSound(s, DeauthorizeSpec(s, caller, principal).1);
  }

  /** `get_authorized` lists exactly the administrators, in key order. */
  lemma AuthorizedListed(s: State)
    requires s.Valid()
    ensures forall p: Principal :: p in GetAuthorized(s) <==> s.IsAuthorized(p)
    ensures forall i :: 0 <= i < |GetAuthorized(s)| ==> |GetAuthorized(s)[i]| <= 29
  {
    forall i | 0 <= i < |GetAuthorized(s)| ensures |GetAuthorized(s)[i]| <= 29 {
      assert GetAuthorized(s)[i] in s.auth.entries;
    }
  }

  // ------------------------------------------------------------ queries

  /** While positions fit in a u32, `get_block` finds exactly the events
      proposed so far, committed or pending, at their positions; a pending
      event comes back in a default block. */
  lemma GetBlockEvents(s: State, index: u32)
    requires s.Total() < U32_LIMIT
    ensures GetBlock(s, index).Ok? <==> index < s.Total()
    ensures GetBlock(s, index).Ok? ==> GetBlock(s, index).value.data == s.Events()[index]
    ensures |s.log| <= index < s.Total() ==> GetBlock(s, index) == Ok(PendingBlock(s.pending[index - |s.log|]))
  {
  }

  /** `get_jurors` and `get_size` read the jurors of the event at `index`,
      committed or pending, and `get_pending` counts the pending batch. */
  lemma JurorQueries(s: State, index: u32)
    requires s.Total() < U32_LIMIT
    ensures GetJurors(s, index).Ok? <==> index < s.Total()
    ensures GetSize(s, index).Ok? <==> index < s.Total()
    ensures index < s.Total() ==>
      && GetJurors(s, index) == Ok(s.Events()[index].jurors)
      && GetSize(s, index) == Ok(ToU32(|s.Events()[index].jurors|))
    ensures GetPending(s) == |s.pending|
  {
    GetBlockEvents(s, index);
  }

  /** `get_certificate` offers a certificate only while a batch is pending,
      and the host then certifies exactly that batch. */
  lemma CertificateWhilePending(lib: Library, s: State, host: Option<Blob>)
    requires s.Linked(lib)
    ensures GetCertificate(s, host).Some? ==> |s.pending| > 0 && s.certifiedData == s.Certified(lib)
    ensures |s.pending| > 0 ==> GetCertificate(s, host) == host
  {
  }

  /** The block tree that is certified while a batch is pending keys its
      events from `length()` on, and `length()` already counts them: event
      `i` of the batch sits under the big-endian bytes of position
      `committed + pending + i`, and the position the first pending event
      has in the ledger is not a key of the tree. */
  lemma PendingLeafKeys(lib: Library, s: State)
    requires s.Total() < U32_LIMIT && s.Total() + |s.pending| <= U32_LIMIT
    ensures var tree := BlockTreeOf(lib, s.pending, s.Length(), s.PreviousHash(lib));
      && (forall p: u32 :: s.Total() <= p < s.Total() + |s.pending| ==>
            && BeBytes(p) in tree
            && tree[BeBytes(p)] == lib.sha256(lib.encodeData(s.pending[p - s.Total()])))
      && (|s.pending| > 0 ==> BeBytes(|s.log|) !in tree)
  {
    var offset := s.Length();
    assert offset == s.Total();
    LeafKeysPresent(lib, s.pending, offset, s.PreviousHash(lib));
    if |s.pending| > 0 {
      LeafKeyAbsent(lib, s.pending, offset, s.PreviousHash(lib), |s.log|);
    }
  }
}
