/** The ledger: the event records (`Data`), the committed blocks (`Block`),
    the foreign functions the canister hashes and encodes them with, the
    block tree certified over the pending batch (`build_tree`) and the hash
    chain that `commit` builds from one batch to the next. */
module Ledger {
  import opened Bytes
  import opened Outcomes

  datatype Kind = Add | Remove | Select | Expand

  /** One proposed event. `jurors_index` is never written by any endpoint, so
      it stays 0. */
  datatype Data = Data(kind: Kind, jurors: seq<Blob>, rand: Option<Blob>, jurors_index: u32, memo: Blob)

  /** `Data::default()`. */
  const DEFAULT_DATA: Data := Data(Kind.Add, [], Option.None, 0, [])

  /** A committed event with the certificate, the certified tree and the hash
      of the last block of the previous batch. */
  datatype Block = Block(certificate: Blob, tree: Blob, data: Data, previous_hash: Hash)

  /** `Block::default()` with the given event. */
  function PendingBlock(d: Data): (b: Block)
    ensures b.data == d && b.certificate == [] && b.tree == [] && b.previous_hash == ZERO_HASH
  {
    Block([], [], d, ZERO_HASH)
  }

  /** The bytes of `"previous_hash"`, the block-tree key of the chain link. */
  const PREVIOUS_HASH_KEY: Blob := [112, 114, 101, 118, 105, 111, 117, 115, 95, 104, 97, 115, 104]

  /** The bytes of `"jury_blocks"`, the label of the certified tree. */
  const JURY_BLOCKS_LABEL: Blob := [106, 117, 114, 121, 95, 98, 108, 111, 99, 107, 115]

  type BlockTree = map<Blob, Hash>

  /** The foreign code the canister calls, left uninterpreted:
      SHA-256, Candid `Encode!` of an event, of a block and of a byte vector,
      the RbTree root hash, `labeled_hash`, the self-describing CBOR of the
      labeled hash tree, the lookup of `canister/<id>/certified_data` in a
      CBOR replica certificate (`None` when the certificate does not parse
      or the path is not found), and the ChaCha20 `Uniform` draws. */
  datatype Library = Library(
    sha256: Blob -> Hash,
    encodeData: Data -> Blob,
    encodeBlock: Block -> Blob,
    encodeBlob: Blob -> Blob,
    rootHash: BlockTree -> Hash,
    labeledHash: (Blob, Hash) -> Hash,
    labeledTree: (Blob, BlockTree) -> Blob,
    lookupCertifiedData: (Blob, Blob) -> Option<Blob>,
    uniform: (Hash, nat, nat) -> nat)

  // ------------------------------------------------------------ block tree

  /** The key of event `i` of a tree built at `offset`: the big-endian
      bytes of `i as u32 + offset`, wrapping. */
  function LeafKey(offset: u32, i: nat): (r: Blob)
    ensures |r| == 4
  {
    BeBytes(ToU32(i + offset))
  }

  /** The leaves `build_tree` inserts for `data`: event `i` under the
      big-endian bytes of `i as u32 + offset` (wrapping). */
  function Leaves(lib: Library, data: seq<Data>, offset: u32): BlockTree
    decreases |data|
  {
    if data == [] then map[]
    else
      var n := |data| - 1;
      Leaves(lib, data[..n], offset)[LeafKey(offset, n) := lib.sha256(lib.encodeData(data[n]))]
  }

  /** The tree `build_tree(data, previous_hash)` returns. */
  function BlockTreeOf(lib: Library, data: seq<Data>, offset: u32, previousHash: Hash): BlockTree {
    Leaves(lib, data, offset)[PREVIOUS_HASH_KEY := previousHash]
  }

  method BuildTree(lib: Library, data: seq<Data>, offset: u32, previousHash: Hash) returns (tree: BlockTree)
    ensures tree == BlockTreeOf(lib, data, offset, previousHash)
  {
    tree := map[];
    for i := 0 to |data|
      invariant tree == Leaves(lib, data[..i], offset)
    {
      var hash := lib.sha256(lib.encodeData(data[i]));
      var key := BeBytes(ToU32(i + offset));
      assert data[..i + 1][..i] == data[..i];
      tree := tree[key := hash];
    }
    assert data[..|data|] == data;
    tree := tree[PREVIOUS_HASH_KEY := previousHash];
  }

  /** Positions that do not wrap have different keys. */
  lemma LeafKeysDiffer(offset: u32, i: nat, j: nat)
    requires offset + i < U32_LIMIT && offset + j < U32_LIMIT && i != j
    ensures LeafKey(offset, i) != LeafKey(offset, j)
  {
    BeInjective(ToU32(i + offset), ToU32(j + offset));
  }

  lemma {:induction false} LeavesAt(lib: Library, data: seq<Data>, offset: u32, i: nat)
    requires offset + |data| <= U32_LIMIT && i < |data|
    ensures LeafKey(offset, i) in Leaves(lib, data, offset)
    ensures Leaves(lib, data, offset)[LeafKey(offset, i)] == lib.sha256(lib.encodeData(data[i]))
    decreases |data|
  {
    var n := |data| - 1;
    if i < n {
      LeavesAt(lib, data[..n], offset, i);
      LeafKeysDiffer(offset, i, n);
    }
  }

  lemma {:induction false} LeavesDomain(lib: Library, data: seq<Data>, offset: u32)
    ensures forall k :: k in Leaves(lib, data, offset) ==> exists i :: 0 <= i < |data| && k == LeafKey(offset, i)
    decreases |data|
  {
    if data != [] {
      var n := |data| - 1;
      LeavesDomain(lib, data[..n], offset);
      forall k | k in Leaves(lib, data, offset) ensures exists i :: 0 <= i < |data| && k == LeafKey(offset, i) {
        if k != LeafKey(offset, n) {
          assert k in Leaves(lib, data[..n], offset);
          var i :| 0 <= i < n && k == LeafKey(offset, i);
        }
      }
    }
  }

  /** Without wrap-around, the tree holds exactly one leaf per event, at its
      offset position, plus the chain link under `"previous_hash"` (which is
      13 bytes long and so never collides with a 4-byte position key). */
  lemma BlockTreeContents(lib: Library, data: seq<Data>, offset: u32, previousHash: Hash)
    requires offset + |data| <= U32_LIMIT
    ensures var tree := BlockTreeOf(lib, data, offset, previousHash);
      && tree[PREVIOUS_HASH_KEY] == previousHash
      && (forall i :: 0 <= i < |data| ==> LeafKey(offset, i) in tree)
      && (forall i :: 0 <= i < |data| ==> tree[LeafKey(offset, i)] == lib.sha256(lib.encodeData(data[i])))
      && (forall k :: k in tree <==> k == PREVIOUS_HASH_KEY || exists i :: 0 <= i < |data| && k == LeafKey(offset, i))
  {
    LeavesDomain(lib, data, offset);
    forall i | 0 <= i < |data|
      ensures LeafKey(offset, i) != PREVIOUS_HASH_KEY
      ensures LeafKey(offset, i) in Leaves(lib, data, offset)
      ensures Leaves(lib, data, offset)[LeafKey(offset, i)] == lib.sha256(lib.encodeData(data[i]))
    {
      assert |LeafKey(offset, i)| != |PREVIOUS_HASH_KEY|;
      LeavesAt(lib, data, offset, i);
    }
  }

  /** Without wrap-around, event `i` of a tree built at `offset` sits under
      the big-endian bytes of position `offset + i`. */
  lemma LeafKeysPresent(lib: Library, data: seq<Data>, offset: u32, previousHash: Hash)
    requires offset + |data| <= U32_LIMIT
    ensures var tree := BlockTreeOf(lib, data, offset, previousHash);
      forall p: u32 :: offset <= p < offset + |data| ==>
        && BeBytes(p) in tree
        && tree[BeBytes(p)] == lib.sha256(lib.encodeData(data[p - offset]))
  {
    var tree := BlockTreeOf(lib, data, offset, previousHash);
    forall p: u32 | offset <= p < offset + |data|
      ensures BeBytes(p) in tree
      ensures tree[BeBytes(p)] == lib.sha256(lib.encodeData(data[p - offset]))
    {
      LeavesAt(lib, data, offset, p - offset);
      assert LeafKey(offset, p - offset) == BeBytes(p);
      assert |BeBytes(p)| != |PREVIOUS_HASH_KEY|;
    }
  }

  /** Without wrap-around, a position below `offset` is not a key of a tree
      built at `offset`. */
  lemma LeafKeyAbsent(lib: Library, data: seq<Data>, offset: u32, previousHash: Hash, position: u32)
    requires offset + |data| <= U32_LIMIT && position < offset
    ensures BeBytes(position) !in BlockTreeOf(lib, data, offset, previousHash)
  {
    var k := BeBytes(position);
    assert |k| != |PREVIOUS_HASH_KEY|;
    LeavesDomain(lib, data, offset);
    forall i | 0 <= i < |data| ensures k != LeafKey(offset, i) {
      assert LeafKey(offset, i) == BeBytes(offset + i);
      BeInjective(position, offset + i);
    }
  }

  /** The value `set_certificate` hands to `set_certified_data`, and `commit`
      compares with the certificate. */
  function CertifiedValue(lib: Library, data: seq<Data>, offset: u32, previousHash: Hash): Hash {
    lib.labeledHash(JURY_BLOCKS_LABEL, lib.rootHash(BlockTreeOf(lib, data, offset, previousHash)))
  }

  // ------------------------------------------------------------ hash chain

  /** `get_previous_hash` over a log: the genesis hash when it is empty,
      otherwise the SHA-256 of the Candid encoding of the last log entry
      (which is itself the Candid encoding of a block). */
  function TailHash(lib: Library, genesis: Hash, log: seq<Block>): (r: Hash)
    ensures |log| == 0 ==> r == genesis
  {
    if |log| == 0 then genesis
    else lib.sha256(lib.encodeBlob(lib.encodeBlock(log[|log| - 1])))
  }

  /** Where block `i` sits in its batch: it either opens a batch, linking to
      the hash of the block before it, or continues the batch of block
      `i - 1` with the same link, certificate and tree witness. */
  predicate LinkedAt(lib: Library, genesis: Hash, log: seq<Block>, i: nat)
    requires i < |log|
  {
    || log[i].previous_hash == TailHash(lib, genesis, log[..i])
    || (0 < i && log[i].previous_hash == log[i - 1].previous_hash
        && log[i].certificate == log[i - 1].certificate && log[i].tree == log[i - 1].tree)
  }

  /** Every block of the log is linked. */
  predicate Chained(lib: Library, genesis: Hash, log: seq<Block>) {
    forall i :: 0 <= i < |log| ==> LinkedAt(lib, genesis, log, i)
  }

  /** The events recorded in a sequence of blocks. */
  function DataOf(blocks: seq<Block>): (r: seq<Data>)
    ensures |r| == |blocks|
    ensures forall i :: 0 <= i < |blocks| ==> r[i] == blocks[i].data
  {
    if blocks == [] then [] else DataOf(blocks[..|blocks| - 1]) + [blocks[|blocks| - 1].data]
  }

  /** The blocks `commit` appends for the pending events. */
  function Batch(certificate: Blob, tree: Blob, data: seq<Data>, previousHash: Hash): (r: seq<Block>)
    ensures |r| == |data|
    ensures forall i :: 0 <= i < |data| ==> r[i] == Block(certificate, tree, data[i], previousHash)
  {
    if data == [] then []
    else Batch(certificate, tree, data[..|data| - 1], previousHash)
         + [Block(certificate, tree, data[|data| - 1], previousHash)]
  }

  /** Committing a batch moves its events to the log in order. */
  lemma DataOfBatch(blocks: seq<Block>, certificate: Blob, tree: Blob, data: seq<Data>, previousHash: Hash)
    ensures DataOf(blocks + Batch(certificate, tree, data, previousHash)) == DataOf(blocks) + data
  {
    var all := blocks + Batch(certificate, tree, data, previousHash);
    forall i | 0 <= i < |all| ensures DataOf(all)[i] == (DataOf(blocks) + data)[i] {
      if i >= |blocks| {
        assert all[i] == Block(certificate, tree, data[i - |blocks|], previousHash);
      }
    }
  }

  /** Appending a batch linked to the tail of the log keeps the log chained. */
  lemma ChainedBatch(lib: Library, genesis: Hash, log: seq<Block>, certificate: Blob, tree: Blob, data: seq<Data>)
    requires Chained(lib, genesis, log)
    ensures Chained(lib, genesis, log + Batch(certificate, tree, data, TailHash(lib, genesis, log)))
  {
    var prev := TailHash(lib, genesis, log);
    var all := log + Batch(certificate, tree, data, prev);
    forall i | 0 <= i < |all| ensures LinkedAt(lib, genesis, all, i) {
      if i < |log| {
        assert all[..i] == log[..i];
        assert LinkedAt(lib, genesis, log, i);
      } else if i == |log| {
        assert all[..i] == log;
      } else {
        assert all[i] == Block(certificate, tree, data[i - |log|], prev);
        assert all[i - 1] == Block(certificate, tree, data[i - 1 - |log|], prev);
      }
    }
  }

  /** Following the links back: the first block of every batch is linked to
      the hash of the whole log before it, so the link of any block `i` is
      the tail hash of some prefix of the log no longer than `i`. */
  lemma {:induction false} LinkPointsBack(lib: Library, genesis: Hash, log: seq<Block>, i: nat)
    requires Chained(lib, genesis, log) && i < |log|
    ensures exists j :: 0 <= j <= i && log[i].previous_hash == TailHash(lib, genesis, log[..j])
  {
    if log[i].previous_hash == TailHash(lib, genesis, log[..i]) {
    } else {
      assert LinkedAt(lib, genesis, log, i);
      LinkPointsBack(lib, genesis, log, i - 1);
    }
  }
}
