# Taproot Assets: commitments, codecs, backup and two loops, verified

A Dafny model of the parts of the Taproot Assets daemon whose correctness spans many functions or whole
runs, with proofs of what they promise.

* **Commitments.** Assets are committed to in a Merkle-sum sparse tree per asset group, and the roots of
  those in an outer tree. The compacted tree the program keeps is proved equal to the full 256-level tree;
  both levels are proved in step with their maps through every update; proofs are complete, and sound short
  of a hash collision; the root depends on the surviving assets and not on history; alternative leaves can be
  merged, proved and trimmed; a split conserves value and every split proves itself.
* **Codec.** Assets, witnesses, split commitments and their root assets are encoded into each other. Encoding
  and decoding are proved inverse at every depth, tree proof compression included, as are the list of
  alternative leaves and both versions of the group key reveal. The tapscript tree of a group key is proved
  to pin down one asset ID.
* **Backup.** The updater and the importer are state machines over an arbitrary outside world: every call to
  database, chain, file system or verifier may answer anything or fail. Results hold for all runs.
* **Loops.** Deleting from a table while paging through it, and the overflow queue.

## How it is built

`Sha256`, point parsing, burn keys and Pedersen keys are uninitialised constants, so nothing is assumed of
them beyond what a lemma requires. Where a result needs that hashes do not collide, it assumes so of the finite set of strings hashed in
the two computations it compares (`Hashing.CollisionFree`), never of the whole function.

Objects that the program updates in place are classes (`AssetCommitments.AssetCommitment`,
`TapCommitments.TapCommitment`, `BackupUpdater.Updater`, `Queue.ConcurrentQueue`, `Cleanup.Store`); loops are
methods. Each is proved against a function on values, and the theorems are about those functions. Map
iteration, goroutine results and lists taken from maps come in any order: the methods pick elements
nondeterministically.

| files | contents |
|---|---|
| `Bytes`, `Hashing`, `Tlv` | byte strings, digests and key bits, TLV streams (BOLT 1, "Type-Length-Value Format") |
| `SumTree`, `TreeProof`, `TreeCorner`, `ProofCodec` | full and compacted sum trees, membership proofs, compressed proofs |
| `Asset`, `AssetKeys`, `AssetCodec`, `Records`, `AltLeafCodec` | assets, keys, encoders and decoders, round trips |
| `Canonical` | what exactly the decoders accept |
| `Layouts` | byte positions and record numbers of every hashed or encoded string |
| `Commitment`, `CommitmentOps`, `CommitmentProof`, `History`, `AltLeaf` | commitments as values and their theorems |
| `AssetCommitment`, `TapCommitment`, `CommitmentBuild` | commitments as the program keeps them |
| `Split` | split commitments |
| `Tapscript`, `GroupKey` | tapscript hashes (BIP 341), group key trees and reveals |
| `BackupState`, `BackupUpdater`, `UpdaterLoop` | the backup file updater and its event loop |
| `BackupMeaning` | what a reconcile does, over what the wallet reports and nothing else |
| `Import` | restoring a backup |
| `ImportMeaning` | what an import does, over the fields of the entries and nothing else |
| `Cleanup`, `Queue` | the mailbox cleanup and the concurrent queue |

## Where the code does less than its documentation says

* Replacing an asset by one of a lower version leaves the inner commitment at the old version, so a fresh
  commitment to the same assets can have another root. `History.LowerVersionLeavesATrace` gives the input,
  `History.UpsertTightIff`, `History.MergeTightIff` and `History.FreshIffCanonical` the exact conditions.
* Two split locators with the same output index, asset ID and x-only key replace each other in the split tree
  although both amounts are consumed. `Split.LocatorsCanReplaceEachOther` gives a request; `Split.SplitRootSum`
  shows that the root sum is the input total exactly when no two locator hashes agree.
* A version 1 group key reveal whose custom root is the zero hash loses it in encoding
  (`GroupKey.V1RoundTripIff`).
* A tree proof that holds, as a sibling, a node with the hash of an empty subtree and another sum does not
  survive compression (`ProofCodec.CompressionLossless`).
* A compressed proof that has lost its last bytes is accepted where they were zero, because a short read leaves
  the rest of the buffer as it is. `ProofCodec.CutProofIff` gives the exact condition.
* A wallet change during a retry is said to pull the retry forward. It replaces the retry by the debounce
  delay, which is later if the retry was about to fire. `UpdaterLoop.RetryCanBePushedBack` gives the run,
  `UpdaterLoop.ChangesDuringRetry` the exact condition and the bound.
* A leaf that is a pending removal and turns up again is dropped from the file if its entry cannot be rebuilt
  before the next write. `BackupState.LiveLeafCanBeLost` gives the run, `BackupState.LiveLeafStaysIff` the
  exact condition.

## Model

| member | source | states |
|---|---|---|
| `SumTree.CompactedRefinesFull` | mssmt/compacted_tree.go:126-271 | the node of any compacted subtree is that of the full tree over the leaves it holds |
| `SumTree.SiblingsRefineFull` | mssmt/compacted_tree.go:56-121 | the siblings read off the compacted tree are those of the full tree, for present and absent keys |
| `SumTree.InsertUpdatesContents` | mssmt/compacted_tree.go:178-271 | inserting changes the contents at the given key only, and inserting the empty leaf deletes, unless the way down is stuck at full depth (see `TreeCorner.StuckNeedsNeighbour`) |
| `SumTree.InsertKeys` | mssmt/compacted_tree.go:178-271 | the places of the compacted tree change by the given key only: deleting a key that has one removes it, any other insertion makes one |
| `SumTree.InsertKeepsPlaced` | mssmt/compacted_tree.go:178-271 | every leaf stays on the path its key bits give |
| `SumTree.RootSumIsTotal` | mssmt/node.go:241-303 | the sum of a full subtree is the total of its leaves |
| `TreeProof.WalkUp` | mssmt/proof.go:81-124 | the loop from the leaf to the root computes the recursive definition, failing exactly on a sum overflow |
| `TreeProof.RootBindsLeaf` | mssmt/proof.go:81-124 | two proofs that give one key the same root hash are for the same leaf, the empty leaf included |
| `TreeProof.FullProofComplete` | mssmt/compacted_tree.go:392-413 | the proof for any key, present or not, recomputes the root with the leaf or the empty leaf |
| `TreeProof.InsertSpec` | mssmt/compacted_tree.go:274-321 | where the way down is not stuck at full depth, insertion fails exactly when the new total leaves 64 bits, and otherwise updates the contents at the key |
| `TreeCorner.StuckNeedsNeighbour` | mssmt/compacted_tree.go:178-271 | after any run of insertions and deletions the way down to a key is stuck at an empty slot at full depth only if another key inserted at some time shares its first 255 bits |
| `TreeProof.MerkleProofIsFull` | mssmt/compacted_tree.go:392-413 | the compacted tree hands out the proof of the full tree |
| `TreeProof.DeleteSucceeds` | mssmt/compacted_tree.go:324-354 | deletion never overflows |
| `TreeProof.RootOfIsFullRoot` | mssmt/compacted_tree.go:30-44 | the root of the compacted tree is that of the full tree, its sum the total |
| `Layouts.PathOfKey` | mssmt/tree.go:94-98 | a key turns right at height i exactly where bit i mod 8 of byte i / 8, counted from the lowest, is set |
| `Layouts.TreeHashes` | mssmt/node.go:92-112 | a leaf hashes value and sum, a branch its left hash, its right hash and its sum |
| `ProofCodec.CompressionLossless` | mssmt/proof.go:137-191 | decompression restores a proof exactly when no sibling has an empty subtree's hash and another sum |
| `ProofCodec.BitsRoundTrip` | mssmt/encoding.go:25-48 | unpacking packed bits gives them back |
| `ProofCodec.ProofRoundTrip` | mssmt/encoding.go:51-100 | an encoded proof is decoded to itself, whatever bytes follow it, given 64-bit sums and no forged empty sibling |
| `ProofCodec.CutProofIff` | mssmt/encoding.go:71-100 | an encoded proof without its last n < 32 bytes is still accepted, and as itself, exactly when none of the 8n topmost siblings is empty; otherwise it is refused |
| `Layouts.ProofLayout` | mssmt/encoding.go:25-68 | the number of stored nodes in two bytes, the nodes, and 32 bytes with a bit set exactly where a sibling has the hash of the empty subtree of its level |
| `Tlv.BigSizeRoundTrip` | asset/encoding.go:94-110 | every 64-bit integer is read back, with what follows it |
| `Tlv.InlineRoundTrip` | asset/encoding.go:128-161 | a length-prefixed string within the limit is read back, with what follows it |
| `Tlv.FieldsRoundTrip` | asset/records.go:111-125 | any set of records survives being written in type order and parsed back |
| `Canonical.BigSizeIsCanonical` | asset/encoding.go:94-110 | an integer is read from its shortest encoding only |
| `Canonical.FieldsAreCanonical` | asset/records.go:111-125 | a set of records is parsed from its own encoding and from nothing else |
| `AssetKeys.AssetIdBinds` | asset/asset.go:415-426 | two genesis have one asset ID exactly when they are equal |
| `AssetKeys.PlaceBinds` | asset/asset.go:1751-1808 | two assets have both commitment keys in common exactly when group, asset ID and script key agree up to parity |
| `Layouts.AssetIdLayout` | asset/asset.go:415-426 | byte by byte what an asset ID hashes, the index of the outpoint little-endian |
| `Layouts.PlaceLayout` | asset/asset.go:1751-1808 | the tap key hashes the x-only group key or is the asset ID; the asset key hashes the x-only script key, after the asset ID within a group |
| `AssetCodec.GenesisRoundTrip` | asset/encoding.go:354-403 | a genesis with a tag within the limit is decoded to itself |
| `AssetCodec.PrevIdRoundTrip` | asset/encoding.go:406-438 | a previous ID with an absent or valid key is decoded to itself |
| `AssetCodec.TxWitnessRoundTrip` | asset/encoding.go:440-488 | a transaction witness within the limits is decoded to itself |
| `AssetCodec.ReadTxWitness` | asset/encoding.go:457-488 | the counted reading loop computes the recursive decoder, malformed input included |
| `AssetCodec.SplitRoundTrip` | asset/encoding.go:575-639 | a split commitment is decoded to itself, with its proof and nested root asset |
| `AssetCodec.WitnessRoundTrip` | asset/encoding.go:491-572 | a witness is decoded to itself, without its transaction witness in the segwit form |
| `AssetCodec.WitnessListRoundTrip` | asset/encoding.go:491-572 | so is every list of witnesses, with what follows it, and its encoding stays within a bound |
| `AssetCodec.FieldsDecode` | asset/asset.go:2236-2250 | a record map that holds the fields of an asset decodes to it, unknown odd records included |
| `AssetCodec.AssetRoundTrip` | asset/asset.go:2144-2250 | every asset within the decoder's limits encodes, and decodes with every encoded field restored, at every nesting depth and for full and alternative leaves |
| `AssetCodec.AssetSurvives` | asset/asset.go:2144-2250 | in the normal form nothing at all is lost |
| `AssetCodec.LeafBindsAsset` | asset/asset.go:2253-2273 | equal leaves are leaves of one asset, up to the witnesses version 1 leaves out |
| `Canonical.AssetIff` | asset/asset.go:2196-2250 | an asset is decoded exactly from a stream that says, record by record and by type number, what it is: canonical values, defaults for missing records, the blank key for a zero key, unknown odd records kept, unknown even ones refused |
| `Canonical.WitnessIff` | asset/encoding.go:491-572 | the same for a witness, whose other records are skipped |
| `Canonical.WitnessListIff` | asset/encoding.go:541-572 | a list of witnesses is decoded exactly from at most 65535 of them, each of at most 65535 bytes behind its length |
| `Canonical.SplitIff` | asset/encoding.go:595-639 | a split commitment is decoded exactly from a proof and a root asset of at most 65535 bytes together |
| `Canonical.TxWitnessesAreCanonical` | asset/encoding.go:440-488 | a transaction witness is decoded from its own encoding only, and exactly within the limits |
| `Canonical.PrevIdsAreCanonical` | asset/encoding.go:406-438 | a previous ID is decoded from its own encoding only, and exactly with an absent or valid key |
| `Canonical.GenesesAreCanonical` | asset/encoding.go:354-403 | a genesis is decoded from its own encoding only, and exactly with a tag of at most 64 bytes |
| `Canonical.KeysAreCanonical` | asset/encoding.go:205-228 | a key is decoded from the bytes of a point, and the blank key from zeroes |
| `Canonical.UnencodableIff` | asset/asset.go:2216-2273 | an asset has no encoding exactly without a script key, with an unknown record of a known type, or with such an asset nested in a witness; and no leaf exactly then or above version 1 |
| `Layouts.AssetRecords` | asset/asset.go:2144-2176 | by type number which records a full asset is encoded to, optional ones exactly when they are set |
| `Layouts.AltLeafRecords` | asset/asset.go:2547-2575 | an alternative leaf is encoded to witnesses, script version, script key and unknown records only |
| `Layouts.WitnessRecords` | asset/records.go:165-172 | by type number which records a witness is encoded to, without the transaction witness in the segwit form |
| `Layouts.GenesisLayout` | asset/encoding.go:354-403 | byte by byte the encoding of a genesis |
| `Layouts.OutPointLayout` | asset/encoding.go:406-438 | byte by byte the encodings of an outpoint and a previous ID |
| `Records.FindUnknownEvenType` | asset/records.go:65-86 | finds an unknown even type exactly when there is one |
| `Records.FilterUnknownTypes` | asset/records.go:90-106 | keeps exactly the unknown records |
| `Records.StrictDecode` | asset/records.go:111-125 | refuses any stream with an unknown even type, keeps the unknown odd records, and agrees with the recursive decoder |
| `Records.CombineRecords` | asset/records.go:148-162 | the result is sorted by type and holds the given and the unparsed records, each once |
| `Records.CombinedIsEncoding` | asset/records.go:148-162 | with distinct types the stream does not depend on the order of the parts, and holds every unparsed record unchanged |
| `AltLeafCodec.EncodeAltLeaves` | asset/encoding.go:868-906 | writes count and leaves, and fails exactly on a repeated script key or a leaf without encoding |
| `AltLeafCodec.DecodeAltLeaves` | asset/encoding.go:908-965 | reads as many leaves as announced, within the record's limits, and refuses repeated script keys |
| `AltLeafCodec.AltLeavesRoundTripIff` | asset/encoding.go:868-965 | leaves with distinct script keys are decoded to themselves exactly when their encoding fits 65535 bytes |
| `Layouts.AltLeavesWithinLimits` | asset/encoding.go:908-965 | what is decoded comes from at most 65535 bytes, at least 40 for each leaf |
| `Commitment.CommitmentLeaf` | commitment/asset.go:331-361 | the outer leaf carries the inner sum and is never the empty leaf |
| `Layouts.OuterLeafLayout` | commitment/asset.go:331-361 | byte by byte the outer leaf, and what the hash in it is of |
| `Commitment.UpsertKeepsValid` | commitment/asset.go:216-267 | an upsert keeps keys, types, leaves, total and version bound of an inner commitment |
| `Commitment.DeleteKeepsValid` | commitment/asset.go:270-327 | so does a delete |
| `Commitment.EmptyLooksEmpty` | commitment/tap.go:309-354 | an emptied inner commitment always meets the test for pruning |
| `Commitment.NonEmptyDoesNotLookEmpty` | commitment/tap.go:309-354 | one that holds an asset does not, short of a hash collision |
| `AssetCommitments.AssetCommitment.New` | commitment/asset.go:184-212 | succeeds exactly for non-empty related assets with distinct keys, leaves and a 64-bit total, raw keys of a group included; tree and map then hold exactly those assets; an error names what is wrong, in the order of the checks |
| `AssetCommitments.AssetCommitment.ParseCommon` | commitment/asset.go:91-180 | accepts exactly related assets, raw keys of a group included, with distinct keys, and gives the map and the largest version; an error names a mismatch there is, or else the repeated key |
| `AssetCommitments.AssetCommitment.BuildTree` | commitment/asset.go:184-212 | succeeds exactly when every asset has a leaf and the total fits 64 bits; the tree then holds exactly their leaves |
| `AssetCommitments.AssetCommitment.FirstMismatch` | commitment/asset.go:91-180 | reports a mismatch exactly when types, groups, raw keys of the group or, without a group, asset IDs differ, and one there is |
| `AssetCommitments.AssetCommitment.IndexByKey` | commitment/asset.go:91-180 | builds the map exactly when no key repeats |
| `AssetCommitments.AssetCommitment.MaxListVersion` | commitment/asset.go:91-180 | the largest version of the list |
| `AssetCommitments.AssetCommitment.TapCommitmentLeaf` | commitment/asset.go:331-361 | the leaf of the value the object stands for |
| `AssetCommitments.AssetCommitment.Upsert` | commitment/asset.go:216-267 | tree, root and map stay in step; the new value is that of the value upsert; type mismatch, group key mismatch, genesis mismatch, missing leaf and overflow are told apart, and an error changes nothing |
| `AssetCommitments.AssetCommitment.Delete` | commitment/asset.go:270-327 | the same for a delete, the key being checked before the type, after which the version is the largest that is left |
| `AssetCommitments.AssetCommitment.MaxVersion` | commitment/asset.go:270-327 | the largest version, whatever the order of iteration |
| `AssetCommitments.AssetCommitment.AssetProof` | commitment/asset.go:364-378 | the stored asset if any, and the proof of the full tree |
| `AssetCommitments.AssetCommitment.Merge` | commitment/asset.go:421-449 | on success the union with the other's assets winning; on failure nothing lost and nothing foreign; it succeeds whenever the totals together fit |
| `TapCommitments.TapCommitment.constructor` | commitment/tap.go:106-178 | a commitment over a tree in step with its map |
| `TapCommitments.TapCommitment.New` | commitment/tap.go:106-178 | repeated tap keys are merged in order; it succeeds whenever types under one key match, all totals together fit and the version is known, and for distinct tap keys exactly as the value constructor does; version as asked for or the maximum |
| `TapCommitments.TapCommitment.PlaceAll` | commitment/tap.go:106-178 | the tree is in step with the collected commitments; it succeeds whenever types under one key match and all totals together fit, and for distinct tap keys a failure means the total overflows |
| `TapCommitments.TapCommitment.MergeOrTake` | commitment/tap.go:106-178 | merges into the commitment of the same tap key, which succeeds whenever type and totals fit, or takes the new one |
| `TapCommitments.TapCommitment.MaxCommitmentVersion` | commitment/tap.go:225-241 | the largest inner version, whatever the order of iteration |
| `TapCommitments.TapCommitment.Upsert` | commitment/tap.go:309-354 | brings a commitment that is out of step under one key back in step, pruning an empty one; an error changes nothing |
| `TapCommitments.TapCommitment.Adopt` | commitment/tap.go:333-354 | map, tree, root and version are replaced together, and the others keep their places |
| `TapCommitments.TapCommitment.NextVersion` | commitment/tap.go:344-351 | version 2 stays, any other becomes the maximum of the contents |
| `TapCommitments.TapCommitment.Delete` | commitment/tap.go:245-276 | removes the key from tree and map and recomputes the version unless it is 2 |
| `TapCommitments.TapCommitment.Proof` | commitment/tap.go:471-513 | hands out exactly the proof of the value for any pair of keys, and the asset if it is there |
| `TapCommitments.TapCommitment.Merge` | commitment/tap.go:574-620 | a non-empty other is refused for its version, with nothing changed, exactly when one of the two versions is above 2 or only one of them is 2, so a merge never changes whether the version is 2; otherwise it succeeds whenever inner types match and the two totals together fit; on success the union, in step, with the version rule of a put; on failure at most one key is out of step |
| `TapCommitments.TapCommitment.MergeOne` | commitment/tap.go:574-620 | one key merged and placed, the others untouched; succeeds whenever the type matches and the totals together fit |
| `TapCommitments.TapCommitment.MergeAltLeaves` | commitment/tap.go:694-753 | succeeds exactly for no leaves or valid, encodable ones with new unique keys, and then places exactly the old and new leaves; leaves that fail the check for validity and unique keys change nothing |
| `TapCommitments.TapCommitment.AltCommitment` | commitment/tap.go:694-732 | the checks before the first leaf is taken in refuse only what cannot be merged |
| `TapCommitments.TapCommitment.ViewIsValid` | commitment/tap.go:80-102 | the root field of an object in step is the root of the value it stands for |
| `TapCommitments.CollectDistinct` | commitment/tap.go:106-178 | with distinct tap keys every listed commitment stands under its own key unmerged |
| `CommitmentBuild.FromAssets` | commitment/tap.go:183-220 | succeeds exactly as the value construction does, with its result, in step |
| `CommitmentBuild.GatherAssets` | commitment/tap.go:183-220 | sorts assets into inner commitments by tap key, or fails, as the fold over the list does |
| `CommitmentBuild.TrimAltLeaves` | commitment/tap.go:658-690 | a new commitment of the same version without the alternative leaves, and those leaves; the given one is unchanged |
| `CommitmentBuild.ReupsertIsAnUpdate` | commitment/tap.go:309-354 | changing an inner commitment in place and upserting it is one put or remove of the runs of which history independence is proved |
| `CommitmentBuild.MergeIsAnUpdate` | commitment/tap.go:574-620 | what the merge method reports is the update of the history results, canonical or not: the plain maps are united with the other's assets winning, short of a non-empty tree with the hash of the empty one |
| `CommitmentProof.RootBindsAssetLeaf` | commitment/proof.go:157-247 | under one root hash and tap key, an asset key has one leaf and one inner version |
| `CommitmentProof.InclusionContradictsAssetExclusion` | commitment/proof.go:157-247 | no root includes an asset and excludes its key under the same tap key |
| `CommitmentProof.DeriveContradictsCommitmentExclusion` | commitment/proof.go:157-270 | no root has anything derived under a tap key and excludes that tap key |
| `CommitmentProof.InclusionImpliesCommitted` | commitment/proof.go:157-202 | an inclusion proof of a commitment's root is for a key the commitment holds, with the same leaf and inner version |
| `CommitmentProof.InclusionIdentifiesAsset` | commitment/proof.go:157-202 | the asset held there is the very asset of the proof, up to witnesses version 1 leaves out, and the proof's tap key, which is never checked, is the asset's own |
| `CommitmentProof.ProofComplete` | commitment/tap.go:471-513 | for every pair of keys the proof makes the matching derivation return the commitment's version and root, hence sum and tapscript root |
| `CommitmentProof.OneKindOfProof` | commitment/proof.go:157-270 | with an asset proof nothing is excluded as a whole, without one nothing is derived under a tap key; every derivation carries the version of the proof |
| `CommitmentProof.ScriptRecognised` | commitment/tap.go:432-451 | the leaf script of a commitment is recognised exactly when its version is known |
| `CommitmentProof.ScriptBinds` | commitment/tap.go:379-404 | the leaf script determines version, root hash and sum |
| `Layouts.CommitmentScriptLayout` | commitment/tap.go:379-404 | byte by byte the leaf script: version before the marker up to version 1, after it in version 2 |
| `Layouts.RecognisedCarriesMarker` | commitment/tap.go:432-451 | what is recognised as a commitment has 73 bytes and carries one of the markers |
| `Layouts.Tags` | commitment/tap.go:379-404 | the strings whose hashes are the markers and the tapscript tags |
| `Layouts.TapscriptLayout` | commitment/tap.go:457-466 | byte by byte what the tapscript leaf and branch hashes are of, the smaller child first |
| `CommitmentProof.TapscriptRootBinds` | commitment/tap.go:457-466 | a tapscript root determines commitment and sibling, unless each commitment is the other's sibling |
| `Tapscript.BranchCommutes` | commitment/tap.go:457-466 | a tapscript branch does not depend on the order of its children |
| `History.LedgerDetermines` | commitment/tap.go:183-220 | two canonical commitments to the same assets are equal |
| `History.UpsertTightIff` | commitment/asset.go:216-267 | an upsert keeps the version exact if and only if it does not replace the last asset of the top version by a lower one |
| `History.MergeTightIff` | commitment/asset.go:421-449 | the same for a merge |
| `History.LowerVersionLeavesATrace` | commitment/asset.go:216-267 | an input for which the same assets get another leaf |
| `History.StepKeepsCanonical` | commitment/tap.go:245-354 | every update without a downgrade keeps a commitment canonical |
| `History.StepLedger` | commitment/tap.go:245-354 | every successful update, downgrade or not, changes the plain map of assets as expected |
| `History.RootSumIsAmount` | commitment/tap.go:74-88 | the root sum is the total of all committed amounts |
| `History.FreshCommitmentIsSame` | commitment/tap.go:183-220 | a commitment made from the survivors in any order is the same commitment |
| `History.FreshIffCanonical` | commitment/tap.go:183-220 | a commitment made from the assets of a commitment is that commitment exactly when it is canonical: nothing empty, every version the maximum |
| `History.ContentsAfterRun` | commitment/tap.go:183-354 | after any run of upserts, deletes, drops and merges the commitment holds what a plain map would and sums to it |
| `History.HistoryIndependence` | commitment/tap.go:183-354 | after any run of updates the commitment holds what a plain map would and sums to it; it equals a fresh commitment to the survivors in any order exactly when it is canonical, and after every run without a downgrade it is |
| `AltLeaves.AddLeafKeysVerifyUnique` | asset/asset.go:2520-2539 | the growing set of keys, or the first error |
| `AltLeaves.AddLeafKeysIff` | asset/asset.go:2511-2539 | it succeeds exactly for valid leaves whose keys are new and pairwise distinct, and adds exactly those keys |
| `AltLeaves.MergeAltAddsExactly` | commitment/tap.go:694-753 | a merge adds exactly the new leaves and changes no other inner commitment |
| `AltLeaves.MergeAltKeepsSum` | commitment/tap.go:694-753 | the root sum does not change |
| `AltLeaves.TrimUndoesMerge` | commitment/tap.go:658-753 | trimming gives the tree root back always, and the whole commitment exactly when its version was 2 or the maximum |
| `AltLeaves.CollectSTXO` | asset/asset.go:2603-2648 | nothing exactly for a fresh mint, a fresh mint into a group or a split output, told by the fields of the only witness; else an error exactly without witnesses or without a previous ID; else for each witness in order the minimal leaf with the even key derived from its input |
| `AltLeaves.SpendsNothingIff` | asset/asset.go:1812-1876 | an asset is a transfer root exactly unless its only witness is one of those three |
| `Layouts.ValidAltLeafIff` | asset/asset.go:2464-2505 | a leaf is valid exactly when it has a key and all that its encoding leaves out is zero or absent |
| `AltLeaves.MarkersValidIff` | asset/asset.go:2603-2648 | the markers are valid alternative leaves exactly when the inputs differ up to key parity |
| `AltLeaves.BurnDataInjective` | asset/burn.go:20-42 | the tweak of the burn key identifies an input up to key parity |
| `AltLeaves.MergedLeavesAreProvable` | commitment/tap.go:694-753 | after a merge new leaves have inclusion proofs, keys neither old nor new exclusion proofs |
| `AltLeaves.SpentInputsAreProvable` | asset/asset.go:2603-2648 | every spent input has an inclusion proof of its marker, any other input without an earlier marker an exclusion proof |
| `Split.IdentitiesPlaceApart` | commitment/split.go:81-87 | locator hashes differ exactly when output index, asset ID or x-only key do, short of a collision |
| `Split.TotalInput` | commitment/split.go:146-151 | the input total in 64-bit arithmetic, wrapping around |
| `Split.PlaceSplits` | commitment/split.go:188-249 | succeeds exactly when all but the last amount are non-zero, keys and leaves exist and the amounts use up the total; the tree then holds the leaves by locator hash; an error names what is wrong |
| `Split.TreeTotal` | commitment/split.go:188-249 | the tree holds all amounts exactly when no locator replaced another |
| `Split.IndexInputs` | commitment/split.go:259-274 | the input set by previous ID and one witness per input in order |
| `Split.AttachProofs` | commitment/split.go:282-295 | every split gets the proof of its locator and the root asset |
| `Split.NewSplitCommitment` | commitment/split.go:142-303 | succeeds exactly for the allowed requests; the split at each locator has its even key, amount, version and output index, no lock, no split root, one unsigned witness of the zero previous ID with the root asset, and genesis, group and script version of the first input; the root asset the same of the root locator, spending every input in order; amounts agree with the inputs modulo 2^64, and exactly if and only if the inputs fit; external amounts are non-zero, and the root amount is zero exactly for the NUMS key; every error names what is wrong |
| `Split.SplitsFollowLocators` | commitment/split.go:188-295 | the same of any split commitment that meets a request |
| `Split.SplitMarksInputs` | asset/asset.go:2603-2648 | no split yields a spent marker, and the root asset yields one for each input, in order |
| `Layouts.LocatorLayout` | commitment/split.go:81-87 | byte by byte what a locator hash is of |
| `Split.Complete` | commitment/split.go:251-303 | the root asset spends every input and carries the root of the tree, every split its own proof and the root asset |
| `Split.SplitRootSum` | commitment/split.go:258-280 | the root asset commits to the input total exactly when locator hashes are distinct |
| `Split.LocatorsCanReplaceEachOther` | commitment/split.go:188-280 | a request that is met although two of its locators differ in key parity only, after which the root asset does not commit to the input total |
| `Split.SplitsProve` | commitment/split.go:188-295 | with distinct locator hashes every split, its split commitment cleared, recomputes from its own proof the root its root asset carries |
| `Split.SplitProvesIff` | commitment/split.go:188-295 | a split proves itself exactly when its own leaf, and not that of another locator of the same hash, stands in the tree |
| `Split.SplitRootBinds` | commitment/split.go:188-295 | no other leaf can be proved for a locator |
| `GroupKey.RootPinsTree` | asset/group_key.go:542-599 | two roots agree exactly when leaf version, asset ID and custom root agree |
| `GroupKey.ValidForOneId` | asset/group_key.go:603-628 | a tree validates for at most one asset ID |
| `GroupKey.ScriptPinsId` | asset/group_key.go:280-328 | the non-spendable script determines version and asset ID |
| `Layouts.NonSpendLayout` | asset/group_key.go:280-328 | byte by byte the two non-spendable scripts, and that no other version has one |
| `GroupKey.InclusionProofReachesRoot` | asset/group_key.go:542-599 | any path to the custom root, continued by the returned proof, ends at the root |
| `GroupKey.ControlBlockSpends` | asset/group_key.go:725-765 | a control block is given exactly for a valid reveal with a parsing key, carries that key and leaf version 0xc0, and commits a spend to the very output key and parity |
| `GroupKey.V1IsNotReadAsV0` | asset/encoding.go:980-1017 | a version 1 reveal is 72 or 106 bytes, and is never dispatched as version 0 |
| `GroupKey.V1RoundTripIff` | asset/group_key.go:772-824 | a version 1 reveal is decoded to itself exactly when its custom root is not the zero hash |
| `GroupKey.V0RoundTripIff` | asset/group_key.go:920-969 | a version 0 reveal is decoded to itself exactly when its root has at most 32 bytes and its key is absent or valid |
| `Layouts.RevealRecords` | asset/group_key.go:772-824 | by type number the records of a version 1 reveal |
| `BackupState.KeyBytesInjective` | backup/updater.go:131-142 | the serialized key determines the key |
| `Layouts.EntryKeyLayout` | backup/updater.go:131-142 | byte by byte the serialized key |
| `Layouts.FirstDifferenceDecides` | backup/updater.go:684-690 | strings are ordered by the first byte in which they differ |
| `BackupState.SortedKeys` | backup/updater.go:684-690 | the same keys in strictly increasing order |
| `BackupState.OrderIsUnique` | backup/updater.go:684-690 | there is only one increasing list of given keys |
| `BackupState.OrderIndependent` | backup/updater.go:684-698 | the written list does not depend on the order in which the keys were collected |
| `BackupState.ReadBack` | backup/updater.go:641-652 | a written list is read back as the map it was written from |
| `BackupState.ReconcileKeepsInv` | backup/updater.go:537-632 | however a reconcile ends: memory and pending removals stay disjoint, every key once held is held, pending or gone from the file, and nothing dirty means nothing pending and a file that agrees; what stays dirty is reported as an error |
| `BackupState.InvHolds` | backup/updater.go:537-722 | that invariant holds after every run of reconciles, failures and restarts |
| `BackupState.LiveLeafIsNeverLost` | backup/updater.go:537-722 | a leaf on disk and not pending stays on disk through every run in which the wallet, when it can be asked, reports it live |
| `BackupState.LiveLeafStaysIff` | backup/updater.go:537-632 | a successful reconcile of a wallet that reports a leaf live keeps it on disk exactly when its removal was not pending or its entry can be built |
| `BackupState.LiveLeafCanBeLost` | backup/updater.go:537-722 | a run from a fresh process after which a leaf that is on disk and reported live is dropped by a successful write |
| `BackupState.WriteIsExact` | backup/updater.go:637-722 | a successful write leaves exactly the entries in memory and the keyed, not pending, not spent entries of the old file, in key order |
| `BackupState.FileIsSorted` | backup/updater.go:684-698 | keys along the file are strictly increasing |
| `BackupState.WriteIsFixedPoint` | backup/updater.go:637-722 | writing again with the same answers changes nothing |
| `BackupState.ReconcileIsFixedPoint` | backup/updater.go:537-632 | a forced reconcile with the same answers reproduces state and file |
| `BackupMeaning.FailedExactly` | backup/updater.go:537-632 | the failed count is the number of confirmed leaves that are not held, held from another block, or held without a group that could be described, and for which no entry can be built |
| `BackupMeaning.MemoryExactly` | backup/updater.go:537-632 | leaf by leaf what memory holds afterwards: nothing that is not live, new entries with the asset, outpoint, group and proof that were built and the reported block, old entries where none is needed or can be built, or where a rebuild of the same block still lacks the group |
| `BackupMeaning.NothingFailedMeansComplete` | backup/updater.go:537-632 | with nothing failed, memory holds exactly the confirmed leaves, each from the block the wallet reports last |
| `BackupMeaning.ReadingFailsExactly` | backup/updater.go:748-783 | a write fails to read exactly if the file cannot be read or decrypted or is an optimistic export |
| `BackupMeaning.OptimisticFileIsKept` | backup/updater.go:748-783 | no run of reconciles, failures and restarts changes an optimistic export |
| `BackupUpdater.IndexAssets` | backup/updater.go:543-556 | the confirmed assets by key, the last of each key |
| `BackupUpdater.Updater.constructor` | backup/updater.go:248-258 | a fresh process over the existing file |
| `BackupUpdater.Updater.DropMissing` | backup/updater.go:558-569 | exactly the entries no longer unspent leave memory and become pending |
| `BackupUpdater.Updater.BuildEntries` | backup/updater.go:571-617 | exactly the new, re-anchored or group-completed entries are taken in, their removals withdrawn, and failures counted |
| `BackupUpdater.Updater.Reconcile` | backup/updater.go:537-632 | the new state, count and error are those of the value reconcile, which `BackupMeaning` describes over the reported leaves |
| `BackupUpdater.Updater.UpdateFile` | backup/updater.go:637-722 | the new state and error are those of the value write |
| `BackupUpdater.Updater.DropSpent` | backup/updater.go:654-675 | fails exactly when a needed lookup fails, otherwise drops exactly the spent disk-only entries |
| `UpdaterLoop.LoopNeverSleepsOnWork` | backup/updater.go:418-530 | at every wait point of every run a timer is armed exactly when something is dirty, failed or changed, and after a change it is the first change's debounce timer |
| `BackupMeaning.QuietLoopHoldsEverything` | backup/updater.go:418-530 | at every wait point without a timer, every confirmed leaf of the last fetch is held in memory |
| `BackupMeaning.FirstWriteHappens` | backup/updater.go:456-465 | if everything answers, the first reconcile leaves a file, even for an empty wallet, with exactly the entries in memory and what of the old file is not spent |
| `UpdaterLoop.BurstKeepsDeadline` | backup/updater.go:468-477 | later changes never move an armed debounce |
| `UpdaterLoop.ChangesDuringRetry` | backup/updater.go:468-477 | any burst of changes during a retry moves the next reconcile to the first change's debounce deadline: later than the retry exactly if less than the delay was left, and by less than the delay |
| `UpdaterLoop.RetryCanBePushedBack` | backup/updater.go:418-530 | a run from the start of the loop in which a change pushes the retry back |
| `UpdaterLoop.MainLoop` | backup/updater.go:418-530 | the loop's timer and updater follow the event by event definition |
| `Import.CollectGroups` | backup/import.go:327-356 | the first recorded group of each key and the keys known before the first entry |
| `ImportMeaning.RecordedIsDescribed` | backup/import.go:282-356 | a key is recorded exactly if some entry has an asset that claims it and a record with a witness that derives it; what is recorded is the first such record |
| `ImportMeaning.InsertedGroupsAreGenuine` | backup/import.go:282-393 | every group inserted derives the key it is inserted for and has a witness |
| `ImportMeaning.KnownExactly` | backup/import.go:488-680 | a group key is ever known exactly if an entry describes it, stores a proof that reveals it, or is reached and has or gets a proof that reveals it |
| `Import.ImportIsOrderly` | backup/import.go:561-893 | in every prefix of the trace each stake follows its key inserts and happens once, each group insert follows a stake of its leaf and happens once; on return every entry is counted once |
| `Import.MainStepKeeps` | backup/import.go:561-822 | one entry of the main pass keeps counters, retry list and trace in order |
| `Import.RetryStepKeeps` | backup/import.go:836-887 | a retry finds its entry among the skipped, so the counter cannot underflow, and keeps the trace in order |
| `Import.PersistKeeps` | backup/import.go:364-393 | persisting a group keeps it inserted at most once and after a staked leaf |
| `Import.StakingDoesGroups` | backup/import.go:364-393 | with a registrar, the recorded group of a leaf just staked has been inserted, unless the call failed |
| `Import.GroupsInsertedExactly` | backup/import.go:364-393 | with a registrar, a completed import has inserted exactly the recorded groups of which it staked a leaf |
| `Import.MainPassDecides` | backup/import.go:561-822 | after the main pass staked entries verify and all other eligible ones are to be retried or hopeless |
| `Import.StakedExactly` | backup/import.go:488-893 | without database failures, exactly the eligible entries are staked that verify under all group keys ever made known |
| `ImportMeaning.StakedInPlainTerms` | backup/import.go:561-893 | the same over the fields of the entry and the answers of the outside world |
| `ImportMeaning.KeysInPlainTerms` | backup/import.go:660-790 | in every run a stake comes after the inserts of an anchor key with a locator and of a script key; no other key is inserted, none without what is needed to register it, and no group without a registrar |
| `ImportMeaning.CountersInPlainTerms` | backup/import.go:561-893 | what is counted as imported is what was staked, however the import ends; what is counted as stale is what was spent |
| `ImportMeaning.PresentInPlainTerms` | backup/import.go:561-660 | without database failures, what is counted as present is what the wallet had before |
| `ImportMeaning.FailsAtFirstFailure` | backup/import.go:561-893 | an import stops exactly at the first database call that fails |
| `Import.OrderDoesNotMatter` | backup/import.go:488-893 | an entry is staked in one order of the entries exactly when it is in any other |
| `Import.GroupOrderDoesNotMatter` | backup/import.go:488-893 | the keys of the groups inserted are the same for every order of the entries |
| `Import.ImportBackup` | backup/import.go:561-893 | the two loops compute the two passes, stopping at a failed database call |
| `Cleanup.CleanupSpentOutpoints` | authmailbox/server.go:950-1060 | the loop ends; every outpoint is checked exactly once unless a page cannot be listed, and then a prefix; exactly those reported spent whose delete succeeds are gone; offsets stay within 32 bits |
| `Cleanup.DeleteSpent` | authmailbox/server.go:1008-1038 | one page, results in any order: exactly its deletable outpoints go, and are counted |
| `Cleanup.NextPage` | authmailbox/server.go:1043-1047 | after any deletions the next page begins at the first row not yet checked |
| `Cleanup.PageDone` | authmailbox/server.go:1043-1047 | advancing by the rows that were not deleted keeps the pages aligned |
| `Cleanup.MinusMembers` | authmailbox/server.go:1008-1038 | deletion removes nothing else |
| `Queue.RunKeeps` | fn/queue.go:97-163 | after every run: exact counter, cap kept, no reordering, duplication or invention, overflow holds the latest items, every item is sent, waiting or counted as dropped, none dropped without a cap |
| `Queue.ClosedMeansDelivered` | fn/queue.go:146-162 | when the out channel is closed an uncapped queue has sent everything in order |
| `Queue.OldestGoesFirst` | fn/queue.go:126-145 | after any run, an out channel that takes an item while some wait gets the one received first among them |
| `Queue.CloseDrains` | fn/queue.go:146-162 | after any run, closing the in channel and taking the waiting items closes the out channel with all of them sent in order |
| `Queue.ConcurrentQueue.TrimOverflow` | fn/queue.go:165-174 | drops the oldest item exactly when a set cap is exceeded |
| `Queue.ConcurrentQueue.SendFront` | fn/queue.go:133-145 | sends and removes the oldest waiting item |
| `Queue.ConcurrentQueue.Start` | fn/queue.go:97-163 | the goroutine follows the event by event definition and keeps the promises |

## Left out

* Storage of tree nodes by hash (`mssmt` stores), batch insertion and copying: the tree is a value.
* TreeProof.InsertSpec: does not model that the program fails when the way down to a key ends in an empty slot
  at full depth; the model inserts there. `TreeCorner.StuckNeedsNeighbour` states what that takes.
* SumTree.InsertUpdatesContents: the same.
* Commitments known by root only (no tree): the classes always have a tree and a map. Absent inner commitments
  as arguments, which the program refuses, do not arise because references are never null.
* `Downgrade`, `TrimSplitWitnesses`, `Copy` and the accessors of commitments: they add no harder property.
* Raw key descriptors of group keys are no part of an asset: they are given beside the assets where a
  commitment is made from a list, and compared there as opaque strings.
* TapCommitments.TapCommitment.Merge: says of a failure only that all keys but one are in step, because what
  has been merged depends on the order of a map; the condition for success is sufficient, since assets held by
  both commitments count only once.
* TapCommitments.TapCommitment.New: for repeated tap keys the condition for success is sufficient, for the same
  reason, and nothing is said of the contents if one object is listed twice.
* TapCommitments.TapCommitment.PlaceAll: the same.
* The record of a group inserted by an import is the first one listed, so of two records for one key the order
  of the entries decides; the keys do not depend on it.
* The TLV library is modelled from BOLT 1: types strictly increasing, minimal integers, values of exactly the
  announced length. Caching of encoded bytes is not modelled.
* SHA-256, curve arithmetic, Schnorr signatures, Pedersen commitments, BIP 32 derivation and AEAD encryption.
* Export, stripping and rehydration of proofs, the backup byte format and encryption: entries are kept
  losslessly by the file, a new file replaces the old one as a whole, and proofs are verified by an oracle that
  is monotone in the known groups. Group keys that become known through the database alone are part of it.
* The concurrent wait for spend notifications before an import: whether an outpoint is spent is asked of the
  outside world, once per entry.
* The type under which a script key is registered during an import, and warnings.
* Import counters are unbounded; the program's have 32 bits, more than a backup can hold entries.
* Starting, subscribing, stopping and the fan-in of notifications of the updater; time is an event's number.
* Cleanup.CleanupSpentOutpoints: a failed delete leaves its row; a delete that takes effect and still reports
  a failure would shift the pages.
* Mailbox streams, addresses, RPC servers, databases and everything else in the repository.
