# Verified model of the peer-to-peer vault

A vault is a folder shared by several agents without a server. Each agent cuts its files into
content-defined chunks, describes them in a manifest that is merged by gossip, fetches the chunks it
lacks, and writes what others changed into its own folder. This project models that logic in Dafny
and proves what it guarantees, and where it guarantees less than its comments say.

Verify everything with `dafny verify dfyconfig.toml`.

## Layout

| file | what it holds |
|---|---|
| `Basics.dfy` | bytes, options, iteration orders, string order |
| `RollingHash.dfy`, `Words64.dfy` | the buzhash over abstract words, and 64-bit words as an instance |
| `Chunker.dfy`, `ChunkerLaws.dfy` | the chunking loop and its recursive specification; tiling, cuts, re-synchronisation |
| `Clocks.dfy` | the hybrid logical clock, and the clocks of whole message-passing runs |
| `Leases.dfy` | the provider lease |
| `Manifests.dfy`, `MergeLaws.dfy` | the manifest, and the exact laws of merge |
| `Grouping.dfy` | when the two groupings of three merges agree |
| `Convergence.dfy`, `Exchange.dfy` | manifests over all runs of any number of replicas; the exchange under interleaving threads |
| `Names.dfy` | which paths and chunk names are accepted, and how content keys compare |
| `Stores.dfy`, `Agents.dfy`, `Transfers.dfy` | chunk store and folder; scan and materialize; chunk transfer |
| `Network.dfy`, `Synchronisation.dfy` | all agents as one state machine, its invariant, and the end-to-end theorems |
| `Losses.dfy` | edits and conflict copies that are lost, exactly when, with concrete runs |
| `Persistence.dfy` | the saved manifest between the agent and the gossip handlers |

The table of 256 words and BLAKE3 are parameters (`Hashing`). That BLAKE3 does not collide is assumed
only of the chunks actually cut in a run (`CollisionFree`). Wall-clock readings are parameters.
HashMaps and directory walks are visited in an arbitrary order. `logical` is a u32 whose increment
wraps, as in a release build; theorems that need it not to wrap bound the number of events.

## Findings

- The comment at chunk.rs:90-93 says a hash that is reset at every cut breaks re-synchronisation. With
  `MIN_CHUNK_SIZE > WINDOW` the reset variant decides every cut as the code does, and the guard
  `window_full` never decides anything (`ChunkResettingAtCuts`, `DecisionIsLocal`).
- The comment at manifest.rs:90-92 says merge is associative, commutative and idempotent.
  Idempotence holds always. The iteration order of the HashMap is invisible exactly when no loser of
  a tie arrives at a path where it can do harm (`OrderInvisibleIff`), and commutativity holds
  exactly when that is so in both directions, tied entries have distinct content keys, and refused
  paths end alike (`MergeCommutesIff`). Associativity holds without ties (`MergeAssociative`) and
  fails with some; the condition is exact for three writes to one path (`OnePathAssociatesIff`). On
  every path that is not itself a conflict name, clock and content key converge with no hypothesis
  on ties (`RunsConverge`).
- The check of relative paths at manifest.rs:99-114 does not see the names `apply` makes itself: a tie
  whose loser has an author id such as `/../../x` files its copy at a path with `..` in it
  (`ConflictPathSafeIff`, `AppliedSafeIff`, `UnsafeCopyWitness`).
- The agent's clock never observes remote clocks, so an edit stamped behind the entry it replaces is
  discarded without a conflict copy (`EditSurvivesIff`, `LostEditWitness`).
- The author of the losing side of a tie never gets its conflict copy on its own disk
  (`LoserOnDiskIff`, `LoserOnDiskWitness`).
- The agent saves a manifest loaded only at start-up, which can erase what a gossip handler has
  acknowledged since (`SaveClimbsIff`, `DiskClimbsIff`, `LostUpdateWitness`).

## Model

| member | source | states |
|---|---|---|
| `RollingHash.WindowHashAppend` | crates/vault-manifest/src/chunk.rs:85 | one rotate-and-XOR step takes the closed form of a window to the closed form of the window with the new byte |
| `RollingHash.RunHashIsWindowHash` | crates/vault-manifest/src/chunk.rs:84-97 | after any prefix the incremental hash equals the XOR over the last 48 bytes of their table words, each rotated by its distance from the end |
| `RollingHash.HashForgetsHistory` | crates/vault-manifest/src/chunk.rs:86-97 | files that end in the same 48 bytes have the same hash there, whatever came before |
| `Words64.RotationsAreLeftRotations` | crates/vault-manifest/src/chunk.rs:85-96 | the two rotations are left rotations of 64 bits by 1 and by 48 |
| `Words64.RotateWindowIsRotate` | crates/vault-manifest/src/chunk.rs:96 | the single rotation by 48 is forty-eight one-bit rotations |
| `Words64.RunHash64` | crates/vault-manifest/src/chunk.rs:82-97 | the closed form holds for the u64 words of the source |
| `Chunker.MaskedIff` | crates/vault-manifest/src/chunk.rs:43-45 | the mask test passes if and only if the hash is a multiple of 2^14 |
| `Chunker.DecisionIsLocal` | crates/vault-manifest/src/chunk.rs:99-104 | the cut test, made with the never-reset hash, is a function of the bytes since the last cut; the window guard is redundant |
| `Chunker.RollOver` | crates/vault-manifest/src/chunk.rs:85-97 | the hash statements of the loop take the hash of a prefix to the hash of the next |
| `Chunker.ChunkData` | crates/vault-manifest/src/chunk.rs:75-111 | the loop returns the chunking in which each chunk is cut from the remaining bytes alone, shifted into place |
| `ChunkerLaws.ChunksTile` | crates/vault-manifest/src/chunk.rs:99-108 | chunks are contiguous, cover the data exactly, carry the digest of their slice, never exceed the maximum, and all but the last reach the minimum |
| `ChunkerLaws.ChunkCountBounds` | crates/vault-manifest/src/chunk.rs:99-104 | n chunks mean more than (n-1)*MIN and at most n*MAX bytes |
| `ChunkerLaws.PiecesRebuild` | crates/vault-manifest/src/chunk.rs:105-107 | the pieces glued together are the file, and chunk hashes are the digests of the pieces |
| `ChunkerLaws.CutCharacterised` | crates/vault-manifest/src/chunk.rs:99-104 | a position is a cut if and only if it is the end, 64 KiB past the current chunk start, or at least 4 KiB past it where the closed-form hash of the last 48 bytes is a multiple of 2^14 |
| `ChunkerLaws.ChunkOfByte` | crates/vault-manifest/src/chunk.rs:104-108 | every byte is in the returned chunk that begins at its chunk start, which ends at the first cut from there on |
| `ChunkerLaws.ChunkStartNear` | crates/vault-manifest/src/chunk.rs:102 | the current chunk start is itself a cut and at most MAX behind |
| `ChunkerLaws.ChunksAfterCut` | crates/vault-manifest/src/chunk.rs:84-108 | from any cut on, the chunks are those of the remaining bytes as a file of their own |
| `ChunkerLaws.ChunksBeforeEndByCut` | crates/vault-manifest/src/chunk.rs:104-107 | the chunks counted before a cut end at or before it |
| `ChunkerLaws.PrefixStable` | crates/vault-manifest/src/chunk.rs:84-108 | appending bytes disturbs no chunk but the last |
| `ChunkerLaws.CommonCutResynchronises` | crates/vault-manifest/src/chunk.rs:84-108 | files with a common suffix and a common cut in it have the same chunks from there on, up to the offset |
| `ChunkerLaws.BoundaryForcesCommonCut` | crates/vault-manifest/src/chunk.rs:94-104 | a content boundary in the suffix, WINDOW bytes in and MIN past both chunk starts, is a cut in both files |
| `ChunkerLaws.EditIsLocal` | crates/vault-manifest/src/chunk.rs:6-10 | replacing the middle of a file keeps the chunks before it and those after the next common cut |
| `ChunkerLaws.ResetVariantDecidesAlike` | crates/vault-manifest/src/chunk.rs:86-93 | a hash cleared at the last cut decides the next byte as the never-reset hash does |
| `ChunkerLaws.ChunkResettingAtCuts` | crates/vault-manifest/src/chunk.rs:86-93 | the loop the comment warns against, which clears the hash at every cut, returns the same chunks |
| `Clocks.Clock.Tick` | crates/vault-manifest/src/hlc.rs:18-26 | the new clock and the returned stamp after a local event |
| `Clocks.Clock.Observe` | crates/vault-manifest/src/hlc.rs:29-42 | the new clock and the returned stamp after a receipt |
| `Clocks.LessIsPackedOrder` | crates/vault-manifest/src/hlc.rs:7-11 | the derived order is that of the numbers with the counter in the low 32 bits |
| `Clocks.TickIncreasesIff` | crates/vault-manifest/src/hlc.rs:18-26 | a tick moves forward if and only if the wall clock has moved on or the u32 counter is not exhausted |
| `Clocks.TickIsLeast` | crates/vault-manifest/src/hlc.rs:18-26 | the stamp is the least one past the clock and not behind the wall |
| `Clocks.ObserveDominatesBoth` | crates/vault-manifest/src/hlc.rs:29-42 | receipt moves past both clocks |
| `Clocks.ObserveIsLeast` | crates/vault-manifest/src/hlc.rs:29-42 | the stamp is the least one past both clocks and not behind the wall |
| `Clocks.LogicalBounded` | crates/vault-manifest/src/hlc.rs:9-39 | in any run the counter is at most the number of events, so 2^32 events cannot overflow it |
| `Clocks.ClockCondition` | crates/vault-manifest/src/hlc.rs:18-42 | in every message-passing run, if one event happens before another its stamp is smaller |
| `Clocks.HappensBeforeTransitive` | crates/vault-manifest/src/hlc.rs:1-2 | the causal order of a run is transitive |
| `Clocks.PhysicalIsLatestWall` | crates/vault-manifest/src/hlc.rs:18-42 | the physical part is exactly the greatest wall reading in the causal past |
| `Leases.MergeCommutesIff` | crates/vault-manifest/src/lease.rs:15-30 | both orders name the same winner if and only if the epochs differ, no score is NaN, or the leases agree |
| `Leases.ScoreDecides` | crates/vault-manifest/src/lease.rs:22-24 | within an epoch the larger real score wins both ways round, infinities are the extremes, and a NaN names the second lease |
| `Leases.EpochAndHolderDecide` | crates/vault-manifest/src/lease.rs:19-29 | the later epoch wins; at equal epoch and score the holder that comes first |
| `Leases.WinnerIsBest` | crates/vault-manifest/src/lease.rs:15-30 | without NaN any pattern of merges yields a claim that went in, such that none has a later epoch, none of its epoch reaches a level its score does not, and none equal in both has an earlier holder |
| `Leases.SameClaimsSameWinner` | crates/vault-manifest/src/lease.rs:15-30 | replicas that saw the same leases agree on epoch, score and holder, for every order, grouping and repetition |
| `Manifests.Manifest.Apply` | crates/vault-manifest/src/manifest.rs:99-142 | the manifest after one entry: refusal, insert, newer write, tie with conflict copy, or nothing |
| `Manifests.Manifest.Put` | crates/vault-manifest/src/manifest.rs:60-62 | put is one apply |
| `Manifests.Manifest.Merge` | crates/vault-manifest/src/manifest.rs:93-97 | merge applies every entry of the other manifest once, in some order |
| `Manifests.Manifest.Get` | crates/vault-manifest/src/manifest.rs:64-66 | get hides tombstones |
| `Manifests.Manifest.GetAny` | crates/vault-manifest/src/manifest.rs:72-74 | get_any shows them |
| `Manifests.ShortIsPrefix` | crates/vault-manifest/src/manifest.rs:132-135 | a conflict name carries the first eight characters of the author id, or all of it |
| `Manifests.ConflictNameUnique` | crates/vault-manifest/src/manifest.rs:132-135 | a conflict name determines the path and the author prefix it was made from |
| `Manifests.ConflictPathSafeIff` | crates/vault-manifest/src/manifest.rs:42-48 | the conflict name of a safe path is safe if and only if the author prefix has no `..` component after its first slash |
| `Manifests.WinnerIsGreater` | crates/vault-manifest/src/manifest.rs:120-131 | the incoming entry takes the path if and only if its clock is later, or the clocks are equal and its joined chunk list is not before the other's, character by character |
| `Basics.LexLeqIff` | crates/vault-manifest/src/manifest.rs:127 | the string order is: a prefix, or a smaller character at the first difference |
| `Names.TieDecidedByFirstDifference` | crates/vault-manifest/src/manifest.rs:120-131 | a tie goes to the greater of the first chunk hashes that differ, or to the longer list |
| `Manifests.JoinConcat` | crates/vault-manifest/src/manifest.rs:32-34 | the joined key is the hashes with a comma between neighbours |
| `Names.SplitRejoins` | crates/vault-manifest/src/manifest.rs:42-48 | the parts of a path hold no slash and give it back |
| `Names.SafePathIff` | crates/vault-manifest/src/manifest.rs:42-48 | a path is accepted if and only if it is not empty and all its components are ordinary names |
| `Names.SafePathStaysInside` | crates/vault-manifest/src/manifest.rs:99-114 | walking an accepted path from any root never leaves that root, at any component |
| `Manifests.JoinInjective` | crates/vault-manifest/src/manifest.rs:32-34 | among well-formed hashes the content key identifies the chunk list |
| `MergeLaws.AppliedClimbs` | crates/vault-manifest/src/manifest.rs:99-141 | apply never forgets a path nor lowers an entry |
| `MergeLaws.MergeDominatesBoth` | crates/vault-manifest/src/manifest.rs:93-97 | a merge is at or above both inputs on every path `apply` accepts, ties included |
| `MergeLaws.MergeOutcome` | crates/vault-manifest/src/manifest.rs:93-141 | the result of a merge path by path, conflict copies and refused paths included, with no reference to the order |
| `MergeLaws.ArrivalHappens` | crates/vault-manifest/src/manifest.rs:94-137 | every loser that can arrive at a conflict name, at first or second hand, does arrive in some iteration order |
| `MergeLaws.OrderInvisibleIff` | crates/vault-manifest/src/manifest.rs:90-97 | every HashMap iteration order gives the same manifest if and only if no loser arrives at a path the target lacks where it beats the entry the source brings, or where nobody brings one and the copy is second-hand |
| `MergeLaws.CleanMergesAgreeIff` | crates/vault-manifest/src/manifest.rs:93-141 | where both directions are order-invisible and tied entries have distinct content keys, the two merges give the same manifest if and only if the paths `apply` refuses end alike |
| `MergeLaws.MergeCommutesIff` | crates/vault-manifest/src/manifest.rs:90-97 | for any two manifests merge commutes, for all orders, if and only if tied entries have distinct content keys, both directions are order-invisible, and the paths `apply` refuses end alike |
| `MergeLaws.SafeMergesCommute` | crates/vault-manifest/src/manifest.rs:90-97 | for manifests of safe paths the first two conditions are enough |
| `MergeLaws.EqualKeyTieBreaksCommutativity` | crates/vault-manifest/src/manifest.rs:127-131 | on a tie with equal content keys each side keeps the other's entry |
| `MergeLaws.CommutativityWitness` | crates/vault-manifest/src/manifest.rs:127-131 | two deletes with the same clock merge differently each way |
| `MergeLaws.MergeIdempotent` | crates/vault-manifest/src/manifest.rs:90-97 | merging a manifest into itself changes nothing, unconditionally |
| `MergeLaws.MergeAssociative` | crates/vault-manifest/src/manifest.rs:90-97 | without ties merge is associative for all iteration orders |
| `Grouping.OnePathAssociatesIff` | crates/vault-manifest/src/manifest.rs:90-142 | three writes to one path, any ties: merge associates, for all iteration orders, if and only if the path is refused or the writes pass an explicit test of clocks, keys and author prefixes |
| `Grouping.AssociativityWitness` | crates/vault-manifest/src/manifest.rs:90-92 | three concrete triples on which the two groupings differ |
| `MergeLaws.ConflictKeepsBothIff` | crates/vault-manifest/src/manifest.rs:122-137 | after a tie both entries are held if and only if the conflict path was free or already held the loser |
| `MergeLaws.AppliedSafeIff` | crates/vault-manifest/src/manifest.rs:99-137 | one apply keeps a manifest to safe paths if and only if it files no conflict copy for an author id that is not plain |
| `MergeLaws.ManifestPathsSafe` | crates/vault-manifest/src/manifest.rs:99-137 | manifests built by puts and merges of entries with plain author ids hold safe paths only, whatever paths are offered |
| `MergeLaws.UnsafeCopyWitness` | crates/vault-manifest/src/manifest.rs:132-137 | a tie whose loser has the author id `/../../x` puts a path with `..` into the manifest |
| `MergeLaws.AbsorbedIff` | crates/vault-manifest/src/manifest.rs:115-140 | exactly when another apply of an entry is a no-op |
| `MergeLaws.AbsorptionKeptIff` | crates/vault-manifest/src/manifest.rs:115-140 | an absorbed entry stays absorbed unless a different entry with the same clock and content key replaces it |
| `MergeLaws.RedeliveryAbsorbed` | crates/vault-manifest/src/manifest.rs:115-140 | once applied, an entry can be applied again after any further writes without effect |
| `MergeLaws.OldSnapshotAbsorbed` | crates/vault-manifest/src/manifest.rs:93-97 | merging an old snapshot again never changes the manifest |
| `Convergence.MergeAtPrimaryPath` | crates/vault-manifest/src/manifest.rs:93-141 | what a merge leaves at a path that is no conflict name in play, for every order and any ties |
| `Convergence.EveryRunHoldsMaximum` | crates/vault-manifest/src/manifest.rs:90-97 | over every run of puts and merges the manifest holds at such a path the greatest write of the replica's causal history |
| `Convergence.SameHistorySameEntry` | crates/vault-manifest/src/manifest.rs:90-92 | replicas with equal histories agree there on presence, clock and content key |
| `Convergence.RunsConverge` | crates/vault-manifest/src/manifest.rs:90-97 | the same across any two runs, whatever order, grouping, duplication and iteration order they used |
| `Exchange.StepKeepsInv` | crates/vault-agent/src/main.rs:136-171 | every lock step of every thread keeps the guarantees of every open exchange |
| `Exchange.MemoryClimbs` | crates/vault-agent/src/main.rs:145-168 | no thread ever lowers an entry of an agent's memory |
| `Exchange.ExchangeDelivers` | crates/vault-agent/src/main.rs:131-171 | under any interleaving the reply covers the request and the initiator ends up covering both |
| `Stores.Store.HasChunk` | crates/vault-agent/src/store.rs:71-79 | a chunk is held if its name is 64 hex digits and it is filed |
| `Stores.Store.WriteChunk` | crates/vault-agent/src/store.rs:81-90 | malformed names are refused, held chunks are kept |
| `Names.ChunkFiledIff` | crates/vault-agent/src/store.rs:71-90 | a new name is filed if and only if it is 64 hexadecimal digits of either case |
| `Names.ChunkNamePlain` | crates/vault-agent/src/store.rs:62-75 | a name the store files holds no slash and no dot |
| `Stores.Store.ReadChunk` | crates/vault-agent/src/store.rs:92-97 | the bytes filed, or an error |
| `Stores.Store.HaveAllChunks` | crates/vault-agent/src/store.rs:100-102 | true if and only if every listed chunk is held |
| `Stores.Store.LoadManifest` | crates/vault-agent/src/store.rs:42-48 | the saved manifest, or an empty one |
| `Stores.Store.SaveManifest` | crates/vault-agent/src/store.rs:53-59 | the manifest is saved |
| `Stores.SliceIsPiece` | crates/vault-agent/src/store.rs:173-177 | the slice the scan files under a hash is the piece with that digest |
| `Stores.WithFileKeeps` | crates/vault-agent/src/store.rs:172-177 | filing a file's chunks keeps the store sound, loses nothing, and leaves the whole file held |
| `Stores.AssembleRebuilds` | crates/vault-agent/src/store.rs:302-305 | gluing a chunk list together from any sound store gives the author's bytes |
| `Stores.HashesIdentifyFile` | crates/vault-agent/src/store.rs:178-206 | equal chunk lists mean equal files |
| `Agents.StoreChunks` | crates/vault-agent/src/store.rs:171-178 | a file is chunked, its chunks filed, its hash list returned |
| `Agents.ScanFile` | crates/vault-agent/src/store.rs:167-222 | one file: skipped if it matches the known entry, else authored, put and made known |
| `Agents.ScanGone` | crates/vault-agent/src/store.rs:227-247 | one vanished path: tombstoned if it was live |
| `Agents.ScanLocal` | crates/vault-agent/src/store.rs:156-250 | the whole scan for any walk order; it reports exactly the paths whose folder content differs from the known state, and leaves every path in sync |
| `Agents.ScanOrderCovers` | crates/vault-agent/src/store.rs:163-227 | a scan visits every file and every known path, once each |
| `Agents.ScanReflectsFolder` | crates/vault-agent/src/store.rs:167-247 | after a scan every file has a live known entry with its chunk list and size and all its chunks filed, and every other known path a tombstone |
| `Agents.ScanAuthors` | crates/vault-agent/src/store.rs:194-246 | every path out of sync, and no other, gets an own entry that describes its file or its removal, stamped not before the wall reading and held by the manifest or outgrown |
| `Agents.MaterializeEntry` | crates/vault-agent/src/store.rs:268-312 | one entry: skipped, deleted, left for later, or written |
| `Agents.MaterializeRemote` | crates/vault-agent/src/store.rs:256-315 | the whole pass, decided path by path from the state it starts in, independent of the order |
| `Agents.MaterializedUnique` | crates/vault-agent/src/store.rs:263-312 | that description determines the result |
| `Agents.MissingChunkHashes` | crates/vault-agent/src/main.rs:109-120 | exactly the hashes named by an entry and not held |
| `Agents.ChunkReply` | crates/vault-agent/src/main.rs:178-183 | exactly the requested chunks that are held |
| `Agents.ApplyChunks` | crates/vault-agent/src/main.rs:122-128 | the reply is filed, up to the first malformed hash |
| `Transfers.NothingMissingIff` | crates/vault-agent/src/main.rs:109-120 | nothing is missing if and only if every entry can be assembled |
| `Transfers.RoundFillsWhatPeerHas` | crates/vault-agent/src/main.rs:147-155 | after a round exactly what the peer lacks is still missing |
| `Transfers.RoundKeepsSound` | crates/vault-agent/src/main.rs:122-128 | every chunk held stays filed under its digest |
| `Transfers.FileCrossesTheWire` | crates/vault-agent/src/main.rs:147-155 | a file scanned by one agent and fetched by another is assembled to the author's bytes |
| `Network.MergedAgent` | crates/vault-agent/src/main.rs:145-168 | merging any snapshot keeps the agent invariant, in particular that own entries in the manifest are what the disk shows |
| `Network.AuthoringScan` | crates/vault-agent/src/store.rs:211-220 | so does a scan that authors an entry |
| `Network.MaterializedInSync` | crates/vault-agent/src/store.rs:279-311 | an applied entry leaves the author's bytes on disk, which the next scan finds unchanged |
| `Network.MaterializedAgent` | crates/vault-agent/src/store.rs:268-312 | a materialize step keeps the agent invariant, even from a stale snapshot |
| `Network.StepKeepsInv` | crates/vault-agent/src/main.rs:351-377 | every step of every agent keeps the system invariant |
| `Network.ScanIsSteps` | crates/vault-agent/src/store.rs:167-247 | a call of scan_local is a run of scan steps |
| `Network.PassIsSteps` | crates/vault-agent/src/store.rs:263-312 | a call of materialize_remote is a run of materialize steps in any order |
| `Synchronisation.EveryRunKeepsInv` | crates/vault-agent/src/main.rs:351-377 | the invariant holds in every reachable state |
| `Synchronisation.NoResurrection` | crates/vault-agent/src/store.rs:181-209 | in every run a scan authors a path only if the user of that replica changed it since the replica last scanned it or wrote it to disk |
| `Synchronisation.UneditedPathNotAuthored` | crates/vault-agent/src/store.rs:194-203 | a path its user leaves alone is never authored by the replica, so a merged remote edit or delete is not reverted |
| `Synchronisation.NoEcho` | crates/vault-agent/src/store.rs:189-209 | a remote file written to disk holds the author's bytes and the next scan changes nothing |
| `Synchronisation.PassConverges` | crates/vault-agent/src/store.rs:268-312 | with chunks in and no pending edit, one materialize pass brings the folder to the manifest's live content |
| `Synchronisation.FoldersConverge` | crates/vault-agent/src/main.rs:351-377 | agents whose manifests agree end up with identical folders |
| `Synchronisation.MutualCoverAgrees` | crates/vault-agent/src/main.rs:136-171 | two agents whose manifests cover each other have equal manifests |
| `Synchronisation.QuietExchangeAgrees` | crates/vault-agent/src/main.rs:131-171 | after both halves of an exchange, with neither manifest changed since its snapshot was taken, the two manifests are equal |
| `Synchronisation.PassesSettle` | crates/vault-agent/src/main.rs:351-377 | once manifests agree, chunks are in and users are idle, one pass on every agent settles the system |
| `Synchronisation.SettlingReached` | crates/vault-agent/src/main.rs:351-377 | from any such state materialize passes alone lead to a settled one |
| `Synchronisation.SettledStays` | crates/vault-agent/src/main.rs:351-377 | in a settled system every step but a user edit changes no folder, manifest, known map or clock |
| `Synchronisation.SettledForEver` | crates/vault-agent/src/main.rs:351-377 | the same over any number of further ticks, including late and repeated deliveries |
| `Synchronisation.SettledFoldersEqual` | crates/vault-agent/src/main.rs:351-377 | in a settled system all folders are equal and show the manifest |
| `Losses.EditSurvivesIff` | crates/vault-agent/src/store.rs:211-220 | an edit survives the next scan and materialize if and only if its stamp is past the remote entry's, or equal with a content key at least as great; otherwise the folder goes back to the remote content |
| `Losses.LostEditWitness` | crates/vault-agent/src/store.rs:211-220 | a fair run of two agents in which an edit disappears from the folder and from every manifest |
| `Losses.LoserOnDiskIff` | crates/vault-agent/src/store.rs:269-271 | after a tie and a pass both sides are in the manifest, and the loser's copy is on a disk if and only if that disk is not its author's |
| `Losses.LoserOnDiskWitness` | crates/vault-agent/src/store.rs:269-271 | two agents with the same manifest after a tie, one folder with the copy and one without |
| `Persistence.HandleManifest` | crates/vault-agent/src/bin/gossip_handler.rs:48-53 | the reply is the merge of the request into what was saved, or into nothing; it is saved, keeps what was saved, covers the request, and the call is a Begin and Finish of the state machine with nothing between |
| `Persistence.AloneKeepsDisk` | crates/vault-agent/src/bin/gossip_handler.rs:48-53 | such a pair of steps from any state keeps what is on disk and adds the request |
| `Persistence.MemoryClimbs` | crates/vault-agent/src/main.rs:319-375 | the agent's memory never loses anything |
| `Persistence.SaveClimbsIff` | crates/vault-agent/src/main.rs:319-375 | with serialised handlers and no ties, a save of the agent loses nothing on disk if and only if its memory covers every request a handler has finished since the last save or start-up |
| `Persistence.DiskClimbsIff` | crates/vault-agent/src/main.rs:319-375 | the saved manifest climbs through any stretch of such a run if and only if every save in it is caught up in that sense |
| `Persistence.AcknowledgedStays` | crates/vault-agent/src/bin/gossip_handler.rs:48-53 | if all saves are caught up, everything a handler accepted or answered stays on disk to the end of the run |
| `Persistence.SerialHandlersClimb` | crates/vault-agent/src/bin/gossip_handler.rs:48-53 | without saves of the agent, serialised handlers never lower the saved manifest, ties included |
| `Persistence.LoneHandlerClimbs` | crates/vault-agent/src/bin/gossip_handler.rs:48-53 | a handler whose load and save are not interleaved with other writes never lowers the saved manifest |
| `Persistence.RepliesStayOnDisk` | crates/vault-agent/src/bin/gossip_handler.rs:48-53 | while it climbs, everything a handler accepted or answered stays on disk |
| `Persistence.LostUpdateWitness` | crates/vault-agent/src/main.rs:315-319 | a run in which an acknowledged entry is erased by the agent's next save |

## Left out

- MergeLaws.MergeAssociative: a condition that is sufficient but not necessary; the exact condition is proved for three manifests of one path each (Grouping.OnePathAssociatesIff), not for manifests whose conflict copies meet at other paths.
- Persistence.SaveClimbsIff: for inputs without ties; a handler that meets one also files a conflict copy, which the condition, ranging over requests, does not mention.
- Agents.ScanLocal: the agent's own steps in one call are not interleaved with other threads in this method; the interleaving is modelled by the path-wise steps of Network.
- Agents.MaterializeRemote: returns the set of applied paths, not the log strings of the source, and has no file-system errors.
- Synchronisation.FoldersConverge: for restart-free, tie-free runs with fewer than 2^32 entries per agent; a restart empties the known map (main.rs:315-318).
- Leases.Merge: scores are exact reals, infinities and NaN; rounding inside f32 and connectivity_score are not modelled.
- Sockets, timeouts, subprocess dialling, argument parsing, JSON and base64: messages are passed as values.
- The file system is a flat map of paths: no directories, permissions, path aliases or the `.vault` directory itself.
- Author ids are sliced by characters; the panic of a byte slice inside a multi-byte character is not modelled.
- BLAKE3 and the derived word table: parameters of the model.
- `len` and `is_empty` of the manifest, and the bounded readers of wire.rs.
- Re-synchronisation within a fixed distance, which is a statistical property of the hash.
