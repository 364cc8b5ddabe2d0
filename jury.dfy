/** The canister as an object: its stable cells are fields, and each update
    endpoint changes them in place as one atomic message. Every method runs
    the canister's own steps on the current state and is proved to leave
    exactly the state that `Canister` says the message leaves, while keeping
    the invariants. */
module Service {
  import opened Bytes
  import opened Outcomes
  import opened OrderedMaps
  import opened Histories
  import opened Pool
  import opened Sampler
  import opened Ledger
  import opened Canister
  import opened Invariants

  class Jury {
    /** The foreign code the canister calls, and its own principal. */
    const lib: Library
    const canisterId: Blob

    var log: seq<Block>
    var pending: seq<Data>
    var genesis: Hash
    var tree: PoolTree
    var auth: OrderedMap<u32>
    var certifiedData: Blob

    /** The stable state as a value. */
    function Snapshot(): State
      reads this
    {
      State(log, pending, genesis, tree, auth, certifiedData)
    }

    /** The invariant between messages: the draws are fair, the state is
        well formed and the ledger is linked. */
    ghost predicate Valid()
      reads this
    {
      Fair(lib.uniform) && Snapshot().Valid() && Snapshot().Linked(lib)
    }

    /** `canister_init(previous_hash)`, run by `installer`. */
    constructor (lib: Library, canisterId: Blob, installer: Principal, arg: Option<string>)
      requires Fair(lib.uniform)
      ensures Valid()
      ensures this.lib == lib && this.canisterId == canisterId
      ensures Snapshot() == Init(installer, arg)
    {
      InitFacts(lib, installer, arg);
      var s := Init(installer, arg);
      this.lib := lib;
      this.canisterId := canisterId;
      log, pending, genesis, tree, auth, certifiedData := s.log, s.pending, s.genesis, s.tree, s.auth, s.certifiedData;
    }

    /** Replaces the whole state by `s`. */
    method Store(s: State)
      modifies this
      ensures Snapshot() == s
    {
      log, pending, genesis, tree, auth, certifiedData := s.log, s.pending, s.genesis, s.tree, s.auth, s.certifiedData;
    }

    /** `add(jurors, memo)`. */
    method Add(caller: Principal, jurors: seq<Blob>, memo: Blob) returns (r: Result<u32>)
      requires Valid()
      modifies this
      ensures Valid()
      ensures (r, Snapshot()) == AddSpec(lib, old(Snapshot()), caller, jurors, memo)
    {
      var s := Snapshot();
      var s';
      r, s' := AddStep(lib, s, caller, jurors, memo);
      AddPreserves(lib, s, caller, jurors, memo);
      Store(s');
    }

    /** `remove(jurors, memo)`. */
    method Remove(caller: Principal, jurors: seq<Blob>, memo: Blob) returns (r: Result<u32>)
      requires Valid()
      modifies this
      ensures Valid()
      ensures (r, Snapshot()) == RemoveSpec(lib, old(Snapshot()), caller, jurors, memo)
    {
      var s := Snapshot();
      var s';
      r, s' := RemoveStep(lib, s, caller, jurors, memo);
      RemovePreserves(lib, s, caller, jurors, memo);
      Store(s');
    }

    /** `select(index, count, memo)`, with the bytes `raw_rand` delivers. */
    method Select(caller: Principal, index: u32, count: u32, memo: Blob, rawRand: Option<Blob>)
      returns (r: Result<u32>)
      requires Valid()
      modifies this
      ensures Valid()
      ensures (r, Snapshot()) == SelectSpec(lib, old(Snapshot()), caller, index, count, memo, rawRand)
    {
      var s := Snapshot();
      var s';
      r, s' := SelectStep(lib, s, caller, index, count, memo, rawRand);
      ProposePreserves(lib, s, caller, SelectEvent(lib, s, index, count, memo, rawRand));
      Store(s');
    }

    /** `expand(index, count, memo)`. */
    method Expand(caller: Principal, index: u32, count: u32, memo: Blob) returns (r: Result<u32>)
      requires Valid()
      modifies this
      ensures Valid()
      ensures (r, Snapshot()) == ExpandSpec(lib, old(Snapshot()), caller, index, count, memo)
    {
      var s := Snapshot();
      var s';
      r, s' := ExpandStep(lib, s, caller, index, count, memo);
      ProposePreserves(lib, s, caller, ExpandEvent(lib, s, index, count, memo));
      Store(s');
    }

    /** `commit(certificate)`. */
    method Commit(caller: Principal, certificate: Blob) returns (r: Result<Option<u32>>)
      requires Valid()
      modifies this
      ensures Valid()
      ensures (r, Snapshot()) == CommitSpec(lib, canisterId, old(Snapshot()), caller, certificate)
    {
      var s := Snapshot();
      var s';
      r, s' := CommitStep(lib, canisterId, s, caller, certificate);
      CommitPreserves(lib, canisterId, s, caller, certificate);
      Store(s');
    }

    /** `authorize(principal)`. */
    method Authorize(caller: Principal, principal: Principal) returns (r: Result<()>)
      requires Valid()
      modifies this
      ensures Valid()
      ensures (r, Snapshot()) == AuthorizeSpec(old(Snapshot()), caller, principal)
    {
      var s := Snapshot();
      var s';
      r, s' := AuthorizeSpec(s, caller, principal).0, AuthorizeSpec(s, caller, principal).1;
      AuthorizePreserves(lib, s, caller, principal);
      Store(s');
    }

    /** `deauthorize(principal)`. */
    method Deauthorize(caller: Principal, principal: Principal) returns (r: Result<()>)
      requires Valid()
      modifies this
      ensures Valid()
      ensures (r, Snapshot()) == DeauthorizeSpec(old(Snapshot()), caller, principal)
    {
      var s := Snapshot();
      var s';
      r, s' := DeauthorizeSpec(s, caller, principal).0, DeauthorizeSpec(s, caller, principal).1;
      DeauthorizePreserves(lib, s, caller, principal);
      Store(s');
    }
  }
}
