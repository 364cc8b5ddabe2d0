# ic-jury: a verified model of the jury canister

The jury canister runs on the Internet Computer and keeps a public,
certified ledger of jury events. Authorized principals (administrators) can:

- add jurors to the juror pool, or remove them from it;
- select a jury of a given size from the pool as it stood at some earlier
  event, drawing from fresh randomness;
- expand an earlier jury with more jurors, redrawn with that jury's seed
  from the pool at the position where the earlier jury is recorded.

Each event goes into a pending batch. After each `add`, `remove`, `select`
and `expand`, the canister publishes the root hash of a hash tree over the
batch as its certified data. `commit` empties the batch without publishing
again. `commit` takes the certificate the Internet Computer
issued for that data, checks that it certifies the current batch, and moves
the batch into the log. Each committed block carries the certificate, the
hash-tree witness, and the hash of the last block committed before its
batch. All blocks of one commit share that hash, so the log is a hash chain
of batches that starts from a genesis hash given at install time.

A per-juror history index records when each juror was in the pool. A
history is a list of event positions: the juror was added at the first,
removed at the second, added again at the third, and so on, up to eight
changes. From that index a jury can be drawn again later for any past
position.

This project models `src/main.rs` in Dafny and proves what it does. The
model has these modules:

- `Bytes`: u32 wrap-around, little- and big-endian encodings, and the
  lexicographic order on byte strings.
- `OrderedMaps`: the ordered maps behind `TREE` and `AUTH`.
- `Histories`: the history index. That is the `from_history`/`to_history`
  encoding plus the updates `add` and `remove` make.
- `Pool`: `collect_pool`, the jurors active at a position.
- `Sampler`: `sample`, which draws distinct indices by rejection.
- `Selection`: `make_jury`, and the fact that expanding a jury keeps its prefix.
- `ExpandRedraw`: a concrete run in which `expand` adds a juror that the
  jury already has.
- `Ledger`: `build_tree`, the block tree, and the hash chain of committed blocks.
- `Hex`: the genesis-hash argument of `canister_init`.
- `Canister`: the state, and every update endpoint as a specification
  function (`AddSpec`, ...). Each update endpoint with a loop or a
  multi-step computation is also written as a method that works the way the
  source does (`AddStep`, ...), proved equal to that function. `authorize`
  and `deauthorize` are single map updates and have only `AuthorizeSpec`
  and `DeauthorizeSpec`. The queries are here too.
- `Invariants`: what each endpoint guarantees. That covers the guard and the
  errors, the new state, and the invariants it keeps: well-formed maps, a
  linked ledger, and a sound history index.
- `Service`: the canister as an object (`Service.Jury`). Its fields are the
  stable cells. Its methods change them in place, one message at a time, and
  keep the invariant between messages.

Traps are modelled as the Internet Computer treats them. A message that traps
leaves no trace, so the model gives `Err(fault)` together with the unchanged
state.

These host calls become inputs:

- `ic_cdk::caller()`;
- the `raw_rand` reply;
- the certificate's lookup result;
- `ic_cdk::api::id()`.

The functions the canister calls but cannot inspect become uninterpreted
fields of `Ledger.Library`:

- SHA-256;
- the Candid and CBOR encoders;
- the `RbTree` root hash and witness;
- `labeled_hash`;
- the ChaCha20/`Uniform` draw stream.

What the model assumes of the draw stream is stated as `Sampler.Fair`.

## Model

| member | source | states |
|---|---|---|
| Bytes.ToU32 | src/main.rs:415 | a value that already fits in a u32 is unchanged by the `as u32` cast |
| Bytes.PushIndex | src/main.rs:166-167 | `length() - 1` after pushing one event is the old `length()`, even when the length wraps at 2^32 |
| Bytes.LeBytes | src/main.rs:137-143 | `to_le_bytes` gives four bytes |
| Bytes.LeRoundTrip | src/main.rs:137-149 | `from_le_bytes(to_le_bytes(x)) == x` |
| Bytes.LeBytesOf | src/main.rs:145-149 | every 4-byte chunk is the little-endian encoding of the u32 it decodes to |
| Bytes.BeBytes | src/main.rs:347-348 | `to_be_bytes` gives four bytes |
| Bytes.BeRoundTrip | src/main.rs:347-348 | a big-endian key decodes back to its position |
| Bytes.BeInjective | src/main.rs:347-348 | two positions have the same key exactly when they are equal |
| Bytes.LexIrreflexive | src/main.rs:348 | no byte string is below itself in the key order |
| Bytes.LexTransitive | src/main.rs:348 | the key order is transitive |
| Bytes.LexTotal | src/main.rs:348 | any two different byte strings are ordered one way or the other |
| Bytes.LexAsymmetric | src/main.rs:348 | the key order is asymmetric |
| Bytes.BeOrder | src/main.rs:348 | big-endian keys sort exactly as their positions do, the "lexicographic order" the comment asks for |
| OrderedMaps.SortedDistinct | src/main.rs:111-116 | a strictly sorted key sequence has no repeated key |
| OrderedMaps.InsertKey | src/main.rs:182 | inserting a key keeps the keys strictly sorted, with the same members plus the key; an existing key changes nothing; a new key adds one |
| OrderedMaps.RemoveKey | src/main.rs:494-499 | removing a key keeps the keys sorted, with the same members minus the key |
| OrderedMaps.OrderedMap.Insert | src/main.rs:485-488 | `insert(k, v)` keeps the map valid and maps `k` to `v`; other entries and the key order are kept |
| OrderedMaps.OrderedMap.Remove | src/main.rs:495-499 | `remove(k)` keeps the map valid and drops exactly `k` |
| OrderedMaps.Empty | src/main.rs:125 | the new map is valid and empty |
| Histories.ToHistory | src/main.rs:145-149 | `to_history` decodes one u32 per whole 4-byte chunk, little-endian, and drops a trailing partial chunk |
| Histories.FromHistory | src/main.rs:137-143 | the encoding of a history takes four bytes per position |
| Histories.HistoryRoundTrip | src/main.rs:137-149 | `to_history(from_history(h)) == h` |
| Histories.BlobRoundTrip | src/main.rs:145-149 | `chunks_exact(4)` drops a trailing partial chunk: re-encoding gives back the blob cut to a multiple of four |
| Histories.FromHistoryLayout | src/main.rs:137-143 | position `i` of a history occupies bytes `4i .. 4i+4`, little-endian |
| Histories.AddOne | src/main.rs:170-188 | for one juror of `add`: an unseen juror gets `[index]`; an active one is unchanged; an inactive one gets `index` appended; the update traps exactly when the inactive history already has MAX_HISTORY entries; no other juror changes |
| Histories.AddJurors | src/main.rs:168-190 | the loop of `add` keeps the index valid and adds exactly the listed jurors as keys |
| Histories.MembersSnoc | src/main.rs:170 | the jurors of a list are those of its prefix plus its last one |
| Histories.AddJurorsTrap | src/main.rs:175-180 | once a juror traps, the whole `add` traps with the same fault, whatever follows |
| Histories.AddedActive | src/main.rs:170-188 | a juror whose history is not full is active after `add` |
| Histories.AddJurorsEffect | src/main.rs:168-190 | `add` traps, with `MaxHistoryExceeded`, exactly when some listed juror is inactive with a full history; otherwise each listed juror gets `[index]`, keeps its active history, or gets `index` appended to its inactive one, and every other juror is unchanged |
| Histories.AddJurorsStep | src/main.rs:170-188 | one more juror of `add` keeps that closed form: it traps exactly when that juror's original history is full |
| Histories.RemoveOne | src/main.rs:206-215 | for one juror of `remove`: an active juror gets `index` appended; an inactive or unknown one is unchanged; no key is added and no other juror changes |
| Histories.RemoveJurors | src/main.rs:204-217 | the loop of `remove` keeps the index valid and its keys unchanged |
| Histories.RemovedInactive | src/main.rs:206-215 | a known juror is inactive after `remove` |
| Histories.RemoveJurorsEffect | src/main.rs:204-217 | after `remove`, each listed juror that was active has `index` appended, and every other juror is unchanged |
| Histories.RemoveJurorsStep | src/main.rs:206-215 | one more juror of `remove` keeps that closed form |
| Histories.MidwayAppend | src/main.rs:181 | appending `index` keeps a history increasing while part of the loop has run |
| Histories.MidwayFromSound | src/main.rs:168 | a sound index is a valid starting point for the loop |
| Histories.MidwayToSound | src/main.rs:190 | the finished loop leaves an index that is sound one position later |
| Histories.AddOneMidway | src/main.rs:171-188 | one step of `add` keeps every history increasing, at most MAX_HISTORY long, ending at or below `index` |
| Histories.AddJurorsMidway | src/main.rs:168-190 | the whole loop of `add` keeps that |
| Histories.AddJurorsSound | src/main.rs:161-193 | after `add` at `index`, every history is strictly increasing, at most MAX_HISTORY long, and made of positions up to `index` |
| Histories.RemoveOneMidway | src/main.rs:207-215 | one step of `remove` keeps every history increasing and bounded |
| Histories.RemoveJurorsMidway | src/main.rs:204-217 | the whole loop of `remove` keeps that |
| Histories.RemoveJurorsSound | src/main.rs:197-220 | after `remove` at `index`, the index is still sound, one position later |
| Pool.PoolOf | src/main.rs:222-250 | the pool has at most as many jurors as the index |
| Pool.PoolOfMembers | src/main.rs:225-247 | a juror is in the pool exactly when it is a key whose history is active at `index` |
| Pool.PoolOfSorted | src/main.rs:225 | the pool follows the key order of `for_each` |
| Pool.PoolOfAppend | src/main.rs:225-247 | the pool of two key runs is the pool of the first followed by the pool of the second |
| Pool.CheckActive | src/main.rs:227-246 | the per-juror test of `collect_pool` (an odd history's last change, then the add/remove spans) returns true exactly when the juror was active at `index` |
| Pool.CollectPool | src/main.rs:222-250 | `collect_pool(index)` returns the active jurors in key order |
| Pool.PoolSorted | src/main.rs:222-250 | the pool is strictly sorted and has no repeated juror |
| Pool.PoolMembers | src/main.rs:222-250 | a juror is in the pool at `index` exactly when it is indexed and active at `index` |
| Pool.ActiveAtAppend | src/main.rs:181 | appending a later position does not change whether a juror was active at an earlier one |
| Pool.ActiveAtSame | src/main.rs:227-246 | a juror's activity is the same at two positions with no change between them |
| Pool.PoolOfSameActivity | src/main.rs:225-247 | two indexes that agree on every juror's activity give the same pool |
| Pool.PoolOfInsertInactive | src/main.rs:187 | adding a key inactive at `index` leaves the pool at `index` as it was |
| Pool.PoolSameBetween | src/main.rs:222-250 | the pool is the same at two positions when no history changes between them |
| Pool.AddOneKeepsPool | src/main.rs:170-188 | one juror of `add` at `index` leaves the pool of every earlier position unchanged |
| Pool.AddJurorsKeepsPool | src/main.rs:161-193 | `add` at `index` leaves every earlier pool unchanged, so a jury drawn for the past can be drawn again |
| Pool.RemoveOneKeepsPool | src/main.rs:206-215 | one juror of `remove` at `index` leaves every earlier pool unchanged |
| Pool.RemoveJurorsKeepsPool | src/main.rs:197-220 | `remove` at `index` leaves every earlier pool unchanged |
| Sampler.Firsts | src/main.rs:320-326 | the values kept from the first `n` draws are distinct |
| Sampler.FirstsPrefix | src/main.rs:320-326 | drawing longer only extends the values kept so far |
| Sampler.FirstsMembers | src/main.rs:321-324 | a value is kept exactly when one of the first `n` draws produced it |
| Sampler.FirstsInRange | src/main.rs:318 | every kept value is below the pool length |
| Sampler.CountCons | src/main.rs:322 | counting values below `k` in a list with a fresh head |
| Sampler.CountBound | src/main.rs:322 | a distinct list has at most its length of values below `k` |
| Sampler.CountFull | src/main.rs:322 | a list holding all of `0 .. k-1` counts `k` of them |
| Sampler.Saturate | src/main.rs:320-326 | a fair stream eventually produces every index below the pool length |
| Sampler.FairCovers | src/main.rs:316-326 | when `amount <= length`, the draws eventually yield `amount` distinct indices, so the rejection loop ends |
| Sampler.SampledCanonical | src/main.rs:320-326 | the sample is the first `amount` distinct draws, however long one keeps drawing |
| Sampler.SamplePrefix | src/main.rs:320-326 | a sample of `k` is the prefix of a larger sample from the same seed |
| Sampler.SampledShape | src/main.rs:311-328 | a sample has exactly `amount` distinct indices, all below the length |
| Sampler.Sample | src/main.rs:311-328 | `sample` traps when `amount > length`, and traps on an empty range (`Uniform::new(0, 0)`); otherwise it returns the first `amount` distinct draws |
| Sampler.DrawFresh | src/main.rs:321-324 | the inner `while` draws until a value not in the cache, and that value is the next distinct draw |
| Sampler.FirstsBelow | src/main.rs:322-324 | while fewer than `amount` distinct values are kept, the draw count is below a count known to suffice |
| Selection.Pick | src/main.rs:257-260 | the jury lists `pool[s]` for each sampled index `s`, in order |
| Selection.MakeJury | src/main.rs:252-262 | `make_jury` returns the jury that the seed and the pool at `index` determine, or the trap `sample` hits |
| Selection.JuryShape | src/main.rs:252-262 | `make_jury` fails exactly when `count` exceeds the pool or the pool is empty; otherwise the jury has `count` distinct jurors, each active at `index` |
| Selection.JuryPrefix | src/main.rs:252-262 | a jury of `k` is the prefix of a larger jury drawn from the same seed and pool |
| Selection.ExpandExtends | src/main.rs:285-287 | the tail of a larger redraw completes the redraw of the old size, and none of its jurors is in that redraw |
| Selection.DistinctSplit | src/main.rs:287 | splitting a distinct jury gives two parts with no juror in common |
| Selection.JuryTail | src/main.rs:286-287 | the tail `expand` keeps is exactly what the larger jury adds to the jury of the old size |
| Selection.RecordedTail | src/main.rs:286-287 | when a jury is the one the pool and seed give for its size, the tail of a larger jury completes it and repeats none of its jurors |
| Ledger.PendingBlock | src/main.rs:432-441 | a pending block has an empty certificate and tree and a zero previous hash around its data |
| Ledger.LeafKey | src/main.rs:347-348 | every leaf key is four bytes |
| Ledger.BuildTree | src/main.rs:342-352 | `build_tree` gives one leaf per pending event, plus `previous_hash`; event `i` is keyed by `offset + i`, where the offset is `length()`, the position after the batch rather than the event's own |
| Ledger.LeafKeysDiffer | src/main.rs:347-348 | different events of a batch get different keys |
| Ledger.LeavesAt | src/main.rs:345-349 | the leaf of event `i` holds the SHA-256 of its Candid encoding |
| Ledger.LeavesDomain | src/main.rs:345-349 | every leaf key is the key of some event of the batch |
| Ledger.BlockTreeContents | src/main.rs:342-352 | the tree maps `previous_hash` to the previous hash and each event's key to its hash, and holds nothing else |
| Ledger.LeafKeysPresent | src/main.rs:344-348 | every position of the batch has its leaf, keyed by the big-endian form of the position |
| Ledger.LeafKeyAbsent | src/main.rs:344-348 | positions before the batch have no leaf |
| Ledger.TailHash | src/main.rs:330-340 | `get_previous_hash` on an empty log is the genesis hash |
| Ledger.DataOf | src/main.rs:385-394 | the data of a list of blocks, block by block |
| Ledger.Batch | src/main.rs:385-394 | `commit` makes one block per pending event, each with the certificate, the witness, the event and the same previous hash |
| Ledger.DataOfBatch | src/main.rs:385-394 | committing a batch appends exactly its events to the log's data |
| Ledger.ChainedBatch | src/main.rs:361-394 | appending a batch linked to the log's tail hash keeps the log a hash chain |
| Ledger.LinkPointsBack | src/main.rs:330-340 | every block links to the tail hash of some earlier prefix of the log |
| Hex.DigitValue | src/main.rs:545 | a hex digit has a value below 16 |
| Hex.Digit | src/main.rs:545 | the digit written for a value reads back as that value |
| Hex.Decode | src/main.rs:545 | `hex::decode` gives half as many bytes as digits |
| Hex.Encode | src/main.rs:545 | the hex form, two digits per byte, that is the inverse used to state the round trip of `hex::decode` |
| Hex.DecodeEncode | src/main.rs:545 | decoding the hex form of a blob gives the blob |
| Hex.DecodeDefined | src/main.rs:545 | `hex::decode` succeeds exactly on even-length strings of hex digits |
| Hex.InitialHash | src/main.rs:541-555 | no argument leaves the all-zero genesis hash |
| Hex.InitialHashOfEncoding | src/main.rs:544-553 | the 64-digit hex form of a hash installs that hash as genesis |
| Hex.InitialHashRejects | src/main.rs:544-553 | an argument that is not 64 hex digits leaves the zero hash |
| Canister.State.Events | src/main.rs:412-416 | there is one event per committed block and pending entry |
| Canister.State.Length | src/main.rs:412-416 | `length()` is the event count while that fits in a u32 |
| Canister.PushedIndex | src/main.rs:166-167 | the returned `length() - 1` is the old `length()` |
| Canister.GetAuthorized | src/main.rs:469-479 | `get_authorized` lists the administrators in strictly sorted key order, each exactly once |
| Canister.GetPool | src/main.rs:294-299 | `get_pool` returns `pool[start .. start+length]`, the end wrapping as a u32; an out-of-range slice traps |
| Canister.GetPoolSize | src/main.rs:406-410 | `get_pool_size` is the pool length cast to u32 |
| Canister.LastIndex | src/main.rs:456-458 | a juror's position in `m` is its last position in the query list |
| Canister.LastPositions | src/main.rs:455-458 | the map built by `find` has exactly the queried jurors, each mapped to its last position |
| Canister.Find | src/main.rs:451-467 | `find` answers one entry per queried juror: the juror's pool position for its last occurrence in the query, and `None` for earlier duplicates and for jurors outside the pool |
| Canister.FindEntryStep | src/main.rs:461-465 | one step of the second loop of `find` sets exactly the entry of the juror at that pool position |
| Canister.SetCertificate | src/main.rs:128-135 | `set_certificate` leaves the labeled root hash of the pending tree as certified data |
| Canister.InsertHistories | src/main.rs:168-190 | the loop of `add`, over `TREE`, computes the history update `AddJurors` specifies, trap included |
| Canister.CloseHistories | src/main.rs:204-217 | the loop of `remove` computes the update `RemoveJurors` specifies |
| Canister.AddStep | src/main.rs:161-193 | `add` does what `AddSpec` states |
| Canister.RemoveStep | src/main.rs:197-220 | `remove` does what `RemoveSpec` states |
| Canister.SelectData | src/main.rs:266-272 | the event `select` builds is the one `SelectEvent` states, traps included |
| Canister.ExpandData | src/main.rs:280-288 | the event `expand` builds is the one `ExpandEvent` states, traps included |
| Canister.ProposeStep | src/main.rs:273-275 | pushing an event and certifying it does what `Propose` states |
| Canister.SelectStep | src/main.rs:264-276 | `select` does what `SelectSpec` states |
| Canister.ExpandStep | src/main.rs:278-292 | `expand` does what `ExpandSpec` states |
| Canister.CommitStep | src/main.rs:354-398 | `commit` does what `CommitSpec` states |
| Invariants.InitFacts | src/main.rs:541-555 | `canister_init` leaves a valid, linked and sound state with no events, the genesis hash from the argument, and the installer as the only administrator |
| Invariants.SoundTreeLater | src/main.rs:167 | a sound index stays sound as the ledger grows |
| Invariants.PushEvents | src/main.rs:151-157 | `push_pending` appends exactly one event |
| Invariants.AddEffects | src/main.rs:161-193 | `add` is refused for non-administrators; it traps exactly when some listed juror is inactive with a full history; otherwise it returns the old `length()`, appends the Add event, adds exactly the listed jurors as keys, gives each listed juror `[index]`, its active history unchanged, or its inactive history with `index` appended, leaves every other juror alone, and changes no earlier pool |
| Invariants.ProposalValid | src/main.rs:151-157 | pushing an event keeps the state well formed |
| Invariants.ProposalLinked | src/main.rs:128-135 | pushing an event and certifying keeps the ledger linked |
| Invariants.AddPreserves | src/main.rs:161-193 | `add` keeps the state valid and the ledger linked |
| Invariants.AddKeepsSound | src/main.rs:161-193 | `add` keeps the history index sound |
| Invariants.RemoveEffects | src/main.rs:197-220 | `remove` succeeds exactly for administrators; it returns the old `length()`, appends the Remove event, keeps the keys, appends `index` to the history of each listed active juror, leaves every other juror alone, and changes no earlier pool |
| Invariants.RemovePreserves | src/main.rs:197-220 | `remove` keeps the state valid and linked |
| Invariants.RemoveKeepsSound | src/main.rs:197-220 | `remove` keeps the index sound |
| Invariants.ProposeEffects | src/main.rs:264-292 | `select` and `expand` succeed exactly for an administrator whose event was built; they then return the old `length()`, append the event, and touch nothing else; otherwise the fault is the guard's or the event's |
| Invariants.ProposePreserves | src/main.rs:264-292 | `select` and `expand` keep the state valid, linked and sound |
| Invariants.SelectEventFacts | src/main.rs:264-276 | a failed `raw_rand` call or a reply of the wrong length traps; otherwise `select` fails exactly when `count` exceeds the pool or the pool is empty; the jury has `count` distinct active jurors and records the seed |
| Invariants.ExpandEventDefined | src/main.rs:280-288 | `expand` traps for a missing block, a block without a seed, and a seed of the wrong length; otherwise it succeeds exactly when the wrapped new size is between the old size and the pool size and the pool is not empty |
| Invariants.ExpandKeepsRecorded | src/main.rs:280-288 | when the jury recorded at `index` is the one the pool at `index` and its seed give for its size, `expand` succeeds exactly when the larger jury fits the pool and a u32, and then adds `count` jurors that complete the recorded jury to the larger one, none of them already on it |
| Invariants.RecordedExpansion | src/main.rs:283-287 | the successful case of that lemma |
| Invariants.CommitAccepts | src/main.rs:354-377 | `commit` is refused for non-administrators; it returns `None` when nothing is pending; otherwise it succeeds exactly when the certificate certifies the current data for this canister; a missing path or a mismatch traps and changes nothing |
| Invariants.SameLedgerLinked | src/main.rs:481-500 | a message that leaves the ledger cells alone keeps it linked |
| Invariants.AdminAddedValid | src/main.rs:485-488 | inserting an administrator keeps `AUTH` valid |
| Invariants.SameShapeValid | src/main.rs:354-398 | a message that leaves `TREE` and `AUTH` alone keeps the state valid |
| Invariants.SameIndexSound | src/main.rs:354-398 | a message that keeps `TREE` and the event count keeps the index sound |
| Invariants.CommitEffects | src/main.rs:378-397 | an accepted `commit` returns the new `length()`, keeps every event and the whole index, keeps the old log as a prefix, and gives each new block the certificate, the witness of the batch's tree, the old tail hash and its pending event |
| Invariants.CommitPreserves | src/main.rs:354-398 | `commit` keeps the state valid and the ledger linked |
| Invariants.CommitKeepsSound | src/main.rs:354-398 | `commit` keeps the index sound |
| Invariants.AuthorizeEffects | src/main.rs:481-490 | `authorize` succeeds exactly for an administrator; it then adds exactly `principal` to the administrators and changes nothing else |
| Invariants.DeauthorizeEffects | src/main.rs:492-500 | `deauthorize` succeeds exactly for an administrator naming an administrator; removing one not present traps; it removes exactly `principal` |
| Invariants.AuthorizePreserves | src/main.rs:481-490 | `authorize` keeps the state valid and linked |
| Invariants.AuthorizeKeepsSound | src/main.rs:481-490 | `authorize` keeps the index sound |
| Invariants.DeauthorizePreserves | src/main.rs:492-500 | `deauthorize` keeps the state valid and linked |
| Invariants.DeauthorizeKeepsSound | src/main.rs:492-500 | `deauthorize` keeps the index sound |
| Invariants.AuthorizedListed | src/main.rs:469-479 | `get_authorized` lists exactly the principals the guard admits, each short enough for `AUTH` |
| Invariants.GetBlockEvents | src/main.rs:424-443 | `get_block` succeeds exactly below `length()`; it returns the event at that position; a pending position gives a default block around its data |
| Invariants.JurorQueries | src/main.rs:400-449 | `get_jurors` and `get_size` answer with the jurors, and their number, of the event at `index` and trap beyond `length()`; `get_pending` counts the batch |
| Invariants.CertificateWhilePending | src/main.rs:301-309 | `get_certificate` offers a certificate only while a batch is pending, and then the certified data is that batch's |
| Invariants.PendingLeafKeys | src/main.rs:342-352 | the tree of the pending batch keys pending event `i` at `length() + i`, and has no leaf for `|log|`, the position of the first pending event |
| ExpandRedraw.CountdownFair | src/main.rs:316-326 | the stream that counts down through `0 .. range - 1` is fair |
| ExpandRedraw.FirstAdd | src/main.rs:168-190 | `add([A, B])` at position 0 gives both jurors the history `[0]` |
| ExpandRedraw.SecondAdd | src/main.rs:168-190 | `add([C])` at position 1 gives `C` the history `[1]` |
| ExpandRedraw.Pools | src/main.rs:222-250 | the pool is `[A, B]` at position 0 and `[A, B, C]` at position 2 |
| ExpandRedraw.SelectDraw | src/main.rs:252-262 | the jury of one drawn at position 0 is `[B]` |
| ExpandRedraw.ExpandDraw | src/main.rs:252-262 | the jury of two drawn at position 2 is `[C, B]` |
| ExpandRedraw.SelectRun | src/main.rs:264-276 | `select(0, 1)` after the two adds returns 2 and records `[B]` |
| ExpandRedraw.ExpandEventHere | src/main.rs:280-288 | `expand(2, 1)` then builds the event with jurors `[B]` |
| ExpandRedraw.ExpandRun | src/main.rs:278-292 | `expand(2, 1)` returns 3 and appends that event |
| ExpandRedraw.RedrawOfOne | src/main.rs:286 | the jury of one at position 2 is `[C]`, not the recorded `[B]` |
| ExpandRedraw.RepeatedJuror | src/main.rs:264-292 | in that run, `select` records `[B]` at position 2 and `expand(2, 1)` records `[B]` again, so the expanded jury names `B` twice |
| Service.Jury.constructor | src/main.rs:541-555 | installing the canister leaves the state `canister_init` describes, with the invariant established |
| Service.Jury.Store | src/main.rs:102-126 | replacing the stable cells leaves exactly the given state |
| Service.Jury.Add | src/main.rs:159-193 | the `add` message changes the cells as `AddSpec` states and keeps the invariant |
| Service.Jury.Remove | src/main.rs:195-220 | the `remove` message changes the cells as `RemoveSpec` states and keeps the invariant |
| Service.Jury.Select | src/main.rs:264-276 | the `select` message changes the cells as `SelectSpec` states and keeps the invariant |
| Service.Jury.Expand | src/main.rs:278-292 | the `expand` message changes the cells as `ExpandSpec` states and keeps the invariant |
| Service.Jury.Commit | src/main.rs:354-398 | the `commit` message changes the cells as `CommitSpec` states and keeps the invariant |
| Service.Jury.Authorize | src/main.rs:481-490 | the `authorize` message changes the cells as `AuthorizeSpec` states and keeps the invariant |
| Service.Jury.Deauthorize | src/main.rs:492-500 | the `deauthorize` message changes the cells as `DeauthorizeSpec` states and keeps the invariant |

## Left out

- Asynchrony. `select` awaits `raw_rand`, and other messages can run during
  that wait. The model handles `select` as one atomic step that receives the
  reply (or its failure) as the input `rawRand`. It does not model other
  messages running in between.
- Host calls are inputs or state:
  - `ic_cdk::caller()` is the `caller` parameter;
  - `ic_cdk::api::id()` is `canisterId`;
  - `data_certificate()` is the `host` parameter of `GetCertificate`;
  - `set_certified_data` is the `certifiedData` field of the state.
- Foreign code is uninterpreted fields of `Ledger.Library`. This covers:
  - SHA-256 and the Candid encoders;
  - the CBOR parsing of the certificate and path lookup in its tree;
  - the `RbTree` root hash, the labeled witness and its CBOR encoding;
  - `labeled_hash`.

  Their own properties (collision resistance, the correctness of the hash
  tree) are not modelled.
- ChaCha20 and `Uniform::new(0, length)` are an abstract stream of draws.
  `Sampler.Fair` is all the model assumes of it: every draw is in range,
  and every value in range is drawn at some point. `make_rng` is part of
  that stream.
- Stable memory. The model does not cover stable memory layout, the
  `MemoryManager`, how `StoreData`/`StoreHash` and the log as bytes are
  serialized, or upgrades (`post_upgrade` is empty; the model keeps `TREE`
  as an ordinary state field). Log entries are kept decoded, so
  `candid::decode_one` on a stored block and the `unwrap`s of `Log::append`
  and `StableCell::set` cannot fail in the model.
- Canister.CommitSpec: a certificate that does not parse as CBOR traps in
  `serde_cbor::from_slice(...).unwrap()`. `lookupCertifiedData` returns
  `None` both for this and for a missing path, so both show up as
  `CertificatePathMissing`.
- Canister.Find: requires fewer than 2^32 queried jurors. With more,
  `i as u32` would wrap.
- Canister.Principal is at most 29 bytes, as an Internet Computer principal
  is. So the `KeyTooLarge` error that the `unwrap` in `authorize` and
  `authorize_principal` would trap on cannot happen, and it is not modelled.
- Bytes.ToU32: the model takes the canister to be built in release mode, so
  u32 arithmetic wraps. The wrapping sites are `length() - 1`
  (src/main.rs:167), `old_count + count` (src/main.rs:287),
  `start + length` (src/main.rs:298) and `i + offset` (src/main.rs:347).
  With overflow checks on, each would trap instead. Callers see no
  difference for `get_pool` and `expand`, since a wrapped end there always
  ends in a slice trap (`SliceOutOfRange`) or a failed draw. The other two
  wrap only after 2^32 events.
- Canister.State.Sound: the history index is shown sound only while the
  event count fits in a u32. Beyond 2^32 events, `length() - 1` wraps and
  histories stop increasing. The lemmas ending in `KeepsSound` state this
  bound.
- Invariants.ExpandKeepsRecorded: `expand` completes the recorded jury
  only when that jury is the one the pool at its own position gives. The
  source does not ensure this. `select(index, ...)` draws from the pool at
  `index` but is recorded at the end of the ledger, and `jurors_index`
  (src/main.rs:46) is never set. `expand` then redraws from the pool at the
  recorded position (src/main.rs:283-287). When jurors were added between
  the two positions, the redraw differs and its tail can repeat a recorded
  juror. `ExpandRedraw.RepeatedJuror` is such a run. The model keeps the
  source's behaviour and states the guarantee with that condition.
- Queries are functions or methods over a `Canister.State` value, not
  methods of `Service.Jury`, since they change nothing.
- Candid interface generation (`export_candid`, `main`), the declarations
  under `src/declarations` and the JavaScript tests are not part of this
  model.
