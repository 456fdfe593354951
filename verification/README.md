# b_verify: authenticated logs anchored in Bitcoin

A server keeps many append-only logs in one authenticated dictionary, a binary Merkle prefix trie,
and commits the root of the trie to Bitcoin. Each commitment transaction spends the change output of
the previous one, so the commitments form a chain that cannot fork without a double spend. Clients
follow block headers, accept the commitments in order, and check log statements against them with
partial tries, which they keep current by merging deltas. This project models that system in Dafny
and proves what it promises. It needs Dafny 4.11 and nothing else: `dafny verify dfyconfig.toml`.

## How the project is laid out

| file | contents |
|---|---|
| `Bits.dfy`, `Trie.dfy` | key bits; tries as values, their hash and lookup |
| `Tree.dfy`, `FullMpt.dfy` | the full trie with caches and flags, as functions and as objects updated in place |
| `Canonical.dfy` | the reference trie of a map, defined without any trie operation |
| `Invariants.dfy`, `Machine.dfy`, `Copies.dfy` | caches and change flags; all runs of a full trie; copies taken at any time |
| `Economy.dfy` | what deltas and proofs leave out, and what an operation leaves to be hashed again |
| `Partial.dfy`, `Delta.dfy`, `Binding.dfy`, `Codec.dfy` | proofs, updates, what a commitment binds, the byte encoding |
| `Merkle.dfy` | the flat Merkle store of a block and inclusion proofs |
| `Logs.dfy` | the numbering of the statements a server takes |
| `Records.dfy`, `Ledger.dfy`, `Server.dfy`, `Client.dfy`, `EndToEnd.dfy`, `Runs.dfy` | commitment records, the server, the clients, both together, whole runs |
| `Bech32.dfy`, `Addresses.dfy` | address encoding; what decodes, and examples written out |
| `Wallet.dfy` | the wallet of the server |

The hash functions, of the trie and of blocks, are parameters of every statement. Nothing is assumed about them: where a result
needs collision resistance, the alternative is a collision that is computed from the inputs, or one
between two concrete strings. Keys of one dictionary have one length, as log identifiers do.

## What turned out to need a condition

- A delta leaves out newly created empty leaves, because an empty leaf never counts as changed. The
  merge is exact if and only if the proof shows no new empty leaf (`Delta.EpochExact`); a split whose
  keys share one more bit is a counterexample (`Delta.DeepSplitHappens`). The client notices, because its
  commitment is then wrong (`Delta.EpochNoticed`).
- A deep copy takes cached hash bytes on trust, so copying before hashing is wrong
  (`Invariants.CopyBeforeHashing`). After any run it answers with the right commitment if and only if the map
  still has the commitment last given out (`Copies.CopyCommitment`), and all its hashes are right if and
  only if the map is the one last committed to and no stale node has a buffer of zeros
  (`Copies.CopyExact`). `Commit` hashes first.
- Nothing separates key from value in the hash of a leaf, and the reader takes keys of any length. A tree
  under the commitment of a map answers as the map does if and only if it does not stop at a leaf whose
  key has another length, for a key the map has; what it reports as present is present
  (`Binding.ProofBound`). Every present key is absent in some trie with the same hash
  (`Binding.RedividedAbsent`).
- The Merkle check does not know how high the tree of the block is. Proofs of k hashes prove exactly the
  entries k rows below the root, and longer ones only what opens a transaction hash
  (`Merkle.CheckSound`, `Merkle.EveryRowProvable`).
- The comments in the client say that the spend check is skipped for the first commitment; the code
  skips it whenever the maiden commitment appears. Accepted sequences are prefixes of each other if
  and only if they have it at the same places (`Client.NonEquivocation`, `Client.MaidenAgainHappens`).
- A repeated root overwrites its old record. When nothing is pending, the list stays in order, with the
  served root mined, if and only if the root is not that of a record before the last and not the served
  one (`Ledger.SaveOrderly`, `Ledger.RepeatedRoot`).
- A fresh full server touches its special log with a random trigger before it registers the maiden
  statement there as the first entry. The maiden statement is then refused, the error is dropped, and the
  first commitment is to the trigger (`Server.Server.Start`). It is the maiden commitment if and only if the
  trigger is the maiden statement, and otherwise no client accepts anything from that server
  (`EndToEnd.FirstRootIsMaiden`, `Runs.FreshServerRejected`).
- A commitment made with no more than the fee and the smallest output leaves no change, and the next one
  cannot follow it. The list is a chain that clients accept if and only if it began with the maiden root
  and every commitment but the last left change (`Runs.RunChain`, `Runs.ChangeRunsOut`).
- The reader of nodes refuses fields of length zero, so the encoding of a leaf with an empty value
  cannot be read back (`Codec.RoundTripIff`).
- Decoding an address returns its prefix in lower case, so the round trip holds exactly for prefixes
  without capitals (`Bech32.RoundTrip`).

## Model

| member | source | states |
|---|---|---|
| `Delta.EpochExact` | mpt/deltampt.go:59-130 | For every run of operations after a reset and every nonempty key set, merging the updates for those keys into the old proof gives exactly the proof taken from the new trie, with its commitment, if and only if every empty leaf that proof shows was already an empty leaf there at the reset |
| `Delta.EpochNoticed` | mpt/partialmpt.go:145-167 | The commitment of the merged tree is the new one if and only if no empty leaf it shows is new, up to an explicit collision or preimage of the zero hash: a client always notices a lost empty leaf |
| `Delta.LostAt` | mpt/node.go:179-208 | At any position, a tree that lost an empty leaf and still has the right hash exhibits that break |
| `Delta.MergeExactAt` | mpt/node.go:179-208 | The same equivalence at any position of the trie, by induction over changed and unchanged nodes |
| `Delta.MergeExact` | mpt/deltampt.go:21-26 | The same at the root, which a delta keeps even when it is unchanged |
| `Delta.EveryClientExact` | mpt/deltampt.go:21-130 | One delta serves the clients of all key sets if and only if no empty leaf of the new trie is new |
| `Delta.ClientInSync` | mpt/partialmpt.go:152-167 | A client that merges one delta per epoch holds the freshly taken proof after every epoch if and only if no epoch shows it a new empty leaf |
| `Delta.DeltaBridges` | mpt/deltampt.go:21-26 | The delta of any reachable trie leads from the map at its last reset to the current map, in the sense of the equivalence, for every key set |
| `Delta.SameKeysSameEmpties` | mpt/deltampt.go:108-130 | Two maps with the same keys have tries with empty leaves at the same positions, below any path |
| `Delta.SameKeysServe` | mpt/deltampt.go:59-130 | An epoch that ends with the keys it began with serves the clients of all key sets |
| `Delta.BridgeLeads` | mpt/deltampt.go:59-62 | The restriction of such a delta to some keys takes the proof for them to the new proof exactly when no shown empty leaf is new |
| `Delta.DeepSplitIsLost` | mpt/deltampt.go:64-130 | When a second key shares two or more leading bits with the only key, the client of the first key does not get the new proof |
| `Delta.DeepSplitHappens` | mpt/emptyleafnode.go:96-98 | A concrete run from an empty dictionary on which that happens: keys 0x00 and 0x20 |
| `Delta.DeltaHash` | mpt/deltampt.go:108-130 | Every node of a delta has the hash of the node it stands for, so the hash cached in it is right |
| `Delta.GetUpdates` | mpt/deltampt.go:64-106 | The recursion with its key partition computes the restriction of a delta to the keys that the equivalence is about |
| `Economy.DeltaLeavesOut` | mpt/deltampt.go:18-26 | A delta leaves out what did not change: over every run after a reset, at a position below the root that had a node, if no key was put at or below it and none dropped at or below its parent, the delta has a stub there or above |
| `Economy.CalmCut` | mpt/deltampt.go:108-130 | The same for one tree: at a node that does not count as changed the copy of the changes has a stub, or above it |
| `Delta.DeltaShallow` | mpt/deltampt.go:59-62 | A delta of a reachable trie can be restricted to any keys of the right length without reading past a key |
| `Delta.PartialMPT.constructor` | mpt/partialmpt.go:56-58 | A proof taken from the trie of a map proves that map |
| `Delta.PartialMPT.Get` | mpt/partialmpt.go:113-137 | A proof answers its own keys as the map does, and any other key as the map does or with the stub error |
| `Delta.PartialMPT.ProcessUpdates` | mpt/partialmpt.go:163-167 | After the update the tree proves the new map if and only if no shown empty leaf is new |
| `Partial.Partition` | mpt/partialmpt.go:82-91 | The loop splits the keys by their next bit, in order |
| `Partial.Turn` | mpt/partialmpt.go:82-91 | The keys of one side are exactly those with that next bit |
| `Partial.CopyPaths` | mpt/partialmpt.go:60-102 | A copied path has no nil node, keeps empty leaves, and keeps interior nodes exactly where keys pass |
| `Partial.CopyHash` | mpt/partialmpt.go:93-101 | Cutting subtrees off to stubs does not change the commitment |
| `Partial.CopyAnswers` | mpt/partialmpt.go:118-137 | Keys of the proof get the answer of the full trie, present or absent, never a stub; other keys get that answer or a stub |
| `Partial.CopyCompose` | client/commitverify.go:137-157 | Slimming a proof to some of its keys gives the proof for those keys taken from the full trie |
| `Partial.ProofOfMap` | mpt/partialmpt.go:45-51 | A proof taken from the trie of a map commits to the root of the map and answers as the map does |
| `Economy.ProofLeavesOut` | mpt/partialmpt.go:60-102 | A proof shows nothing off the paths of its keys: at a position that no key passes it has a stub there or above, or an empty leaf |
| `Economy.MapProofLeavesOut` | mpt/partialmpt.go:45-51 | The same for the proof taken from the trie of a map |
| `Binding.AnswersBound` | mpt/partialmpt.go:118-147 | Two tries, full or partial, have one commitment and both answer a key: the walk along the key exhibits a collision, a preimage of the zero hash, or a leaf and an interior node with one preimage; or the answers are equal if and only if the two do not stop at leaves with keys of different lengths of which one is the key asked for |
| `Binding.ProofBound` | mpt/interiornode.go:63-89 | Any tree under the commitment of a map, wherever it comes from: it exhibits such a break, or it answers the key as the map does if and only if it does not stop at a leaf whose key has another length while the map has the key; what it reports as present is so in any case |
| `Binding.OneLengthBound` | mpt/partialmpt.go:118-147 | With keys of one length the answers are equal or there is a break |
| `Binding.RedividedAbsent` | mpt/dictionaryleafnode.go:54-60 | The condition is needed everywhere: for every key present in any trie there is a trie with the same hash in which it is absent, without any break |
| `Binding.KeyLengthMatters` | mpt/dictionaryleafnode.go:54-60 | Two tries written out with the same hash under every hash function and different answers |
| `Machine.RunRefinesMap` | mpt/fullmpt.go:58-207 | Over every run of inserts, deletes, resets and commitments, a lookup answers as the map updated by the same operations, and no node lies deeper than a key has bits |
| `Machine.HistoryIndependence` | mpt/fullmpt.go:68-218 | Two runs with the same effect on the map leave the same trie and the same commitment |
| `Machine.LazinessInvisible` | mpt/interiornode.go:63-108 | Leaving all commitments out of a run changes neither trie nor commitment; the commitment is the one recomputed from the map; the recalculation count is the number of stale nodes, and none after a commitment |
| `Machine.StepInv` | mpt/fullmpt.go:58-225 | Every operation keeps the invariant of all runs: canonical shape, right caches, sound change flags |
| `Machine.InitInv` | mpt/fullmpt.go:25-30 | A new dictionary meets the invariant |
| `Machine.CommitStep` | mpt/fullmpt.go:215-218 | A commitment answers with the hash of the map, costs the stale nodes and leaves none |
| `Economy.PutCost` | mpt/fullmpt.go:68-117 | After one insertion into a committed dictionary, a commitment costs one hash for each interior node on the path of the key, and one more if and only if the map did not have that value there |
| `Economy.DropCost` | mpt/fullmpt.go:159-207 | After one deletion it costs one hash for each interior node left on the path of the key, whether or not the key was there |
| `Economy.PutAgain` | mpt/dictionaryleafnode.go:88-94 | Putting an entry that is there leaves the map and the leaf as they are, flags and hash buffer included |
| `Economy.InsertStale` | mpt/fullmpt.go:68-117 | Below any node with nothing stale, an insertion makes stale the interior nodes on the path of the key and its leaf, but not a leaf that had the value already or one that was pushed down |
| `Economy.DeleteStale` | mpt/fullmpt.go:159-207 | A deletion makes stale the interior nodes left on the path of the key and no leaf |
| `Economy.SameValueSameLeaf` | mpt/dictionaryleafnode.go:88-94 | Below any node, writing the value that is there keeps the leaf and the shape |
| `Economy.BuffersKept` | mpt/interiornode.go:97-108 | Overwriting a value writes no hash buffer |
| `Economy.BuffersCopied` | mpt/interiornode.go:340-358 | Clearing the flags and copying keep all hash buffers in their places |
| `Machine.ResetStep` | mpt/fullmpt.go:223-225 | After a reset the flags are sound against the trie as it is now |
| `Canonical.InsertTrieOf` | mpt/fullmpt.go:68-96 | Inserting below any node turns the reference trie of a map into that of the map with the entry |
| `Canonical.SplitTrieOf` | mpt/fullmpt.go:98-117 | Two leaves pushed down until their keys part are the reference trie of the two entries; their bits do not run out first |
| `Canonical.DeleteTrieOf` | mpt/fullmpt.go:159-207 | Deleting below any node with its collapses turns the reference trie of a map into that of the map without the entry |
| `Canonical.InsertRootOf` | mpt/fullmpt.go:58-61 | The same for inserting at the root, which stays an interior node |
| `Canonical.DeleteRootOf` | mpt/fullmpt.go:154-157 | The same for deleting at the root, which never collapses |
| `Canonical.LookupRootOf` | mpt/fullmpt.go:123-144 | A lookup in the reference trie answers as the map and stays within the key |
| `Canonical.TrieOfBushy` | mpt/fullmpt.go:175-206 | No interior node below the root is left with a single leaf, and heights are bounded by the bits left |
| `Canonical.RootOfHeight` | mpt/node.go:129-136 | The height of a trie is at most eight times the key length |
| `Canonical.CommitmentDigest` | mpt/interiornode.go:63-89 | The hash of the trie of a map is a digest defined from the map alone, by recursion on the next bit of its keys: zeros for no entry, the hash of key and value for one, else, and at the root always, the hash of the digest of the entries with bit 0 followed by that of the entries with bit 1 |
| `Canonical.TrieDigest` | mpt/interiornode.go:63-89 | The same below any path |
| `Canonical.SmallCommitments` | mpt/interiornode.go:84 | The commitments of no entry, of one entry on either side and of one on each side, written out for every hash function and every key and value |
| `Bits.BitOrder` | utils/utils.go:54-60 | The bits of a key are those of its first byte, then those of its second and so on; the first is set if and only if the first byte is 128 or more |
| `Bits.ByteIsSum` | utils/utils.go:56-60 | A byte is the sum of its bits weighted 128, 64, down to 1 |
| `Bits.AgreeOnAll` | utils/utils.go:56-60 | Keys with the same bits are the same key, so a descent separates any two keys |
| `Invariants.InsertCache` | mpt/fullmpt.go:68-117 | Inserting keeps every hash that is not stale right and staleness closed upward |
| `Invariants.DeleteCache` | mpt/fullmpt.go:159-207 | Deleting keeps them too |
| `Invariants.RehashOk` | mpt/interiornode.go:63-89 | Hashing answers with the hash recomputed from scratch, leaves nothing stale and changes nothing else |
| `Invariants.RecalculationsOk` | mpt/interiornode.go:188-196 | The count that stops at nodes that are not stale is the number of all stale nodes |
| `Invariants.CopyOk` | mpt/interiornode.go:340-358 | A deep copy of a trie with nothing stale has right hashes |
| `Invariants.CopyBeforeHashing` | mpt/dictionaryleafnode.go:234-236 | A trie that was never hashed has a copy that answers with zeros |
| `Copies.CopyExact` | mpt/interiornode.go:340-358 | After any run, a copy has all hashes right if and only if the map is the one last committed to and no stale node has a buffer of zeros, up to an explicit break |
| `Copies.CopyCommitment` | mpt/fullmpt.go:295-301 | After any run, a copy answers with the commitment last given out, zeros before the first; that is right if and only if the map still has that commitment |
| `Copies.RunRemembers` | mpt/interiornode.go:63-108 | Over every run, a buffer holds what the last commitment left in the node, which is the hash of what was there then, or zeros in a node made since |
| `Copies.Reinserted` | mpt/dictionaryleafnode.go:234-236 | The commitment alone does not decide: after an entry is committed to, dropped and put again the copy answers rightly but has a leaf with a hash of zeros |
| `Copies.SameCommitmentSameMap` | mpt/fullmpt.go:215-218 | Two maps with one commitment are one map, or some key of theirs exhibits a break |
| `Invariants.InsertFlags` | mpt/fullmpt.go:68-117 | Inserting keeps the change flags sound, also for the leaf moved by a split |
| `Invariants.DeleteFlags` | mpt/fullmpt.go:175-206 | Deleting keeps them sound, also for the leaf that is pushed up |
| `Invariants.UnchangeAll` | mpt/interiornode.go:177-185 | Clearing the flags while skipping unchanged children clears all of them |
| `Invariants.FlagsAt` | mpt/interiornode.go:166-185 | At every position, an unchanged node that is no empty leaf roots what was there at the reset, and a changed node has only changed ancestors |
| `FullMpt.DictionaryLeafNode.constructor` | mpt/dictionaryleafnode.go:29-34 | A new leaf is changed and stale |
| `FullMpt.DictionaryLeafNode.CachedHash` | mpt/dictionaryleafnode.go:45-51 | A leaf with a given hash is changed and not stale |
| `FullMpt.DictionaryLeafNode.SetValue` | mpt/dictionaryleafnode.go:88-94 | Writing another value marks the leaf changed and stale; writing the same value changes nothing |
| `FullMpt.DictionaryLeafNode.GetHash` | mpt/dictionaryleafnode.go:54-60 | A stale leaf is hashed once and answers from its cache after that |
| `FullMpt.InteriorNode.constructor` | mpt/interiornode.go:33-38 | A new interior node is changed and stale |
| `FullMpt.InteriorNode.CachedHash` | mpt/interiornode.go:40-45 | An interior node with a given hash is changed and not stale |
| `FullMpt.InteriorNode.SetChild` | mpt/interiornode.go:97-108 | Setting a child marks the node changed and stale and leaves the other child alone |
| `FullMpt.SplitLeaves` | mpt/fullmpt.go:98-117 | On the heap, splitting builds the fork of the two leaves out of new nodes and those leaves |
| `FullMpt.InsertHelper` | mpt/fullmpt.go:68-96 | Inserting in place leaves exactly the tree the insertion function gives, in the old nodes and new ones |
| `FullMpt.Collapse` | mpt/fullmpt.go:175-206 | The node that replaces a subtree after a deletion in it |
| `FullMpt.DeleteHelper` | mpt/fullmpt.go:159-207 | Deleting in place leaves exactly the tree the deletion function gives |
| `FullMpt.GetHelper` | mpt/fullmpt.go:128-144 | Looking up on the heap answers as the lookup function |
| `FullMpt.GetHash` | mpt/interiornode.go:63-89 | Hashing in place fills exactly the stale caches and invokes the hash function once for each |
| `FullMpt.MarkUnchangedAll` | mpt/interiornode.go:177-185 | Clears the flags of the changed part in place and touches nothing else |
| `FullMpt.CountHashes` | mpt/interiornode.go:188-196 | Counts the hash invocations the next commitment needs |
| `FullMpt.DeepCopy` | mpt/interiornode.go:340-358 | Builds a copy that shares no node with the original |
| `FullMpt.CopyMultiplePaths` | mpt/partialmpt.go:60-102 | Taking a proof gives the copied paths of the shape, and its only side effect is to fill caches |
| `FullMpt.CopyChangesOnly` | mpt/deltampt.go:108-130 | Taking a delta gives the changed part, and its only side effect is to fill caches |
| `FullMpt.FullMPT.constructor` | mpt/fullmpt.go:25-30 | A new dictionary is the initial state of all runs |
| `FullMpt.FullMPT.Insert` | mpt/fullmpt.go:58-61 | One insertion step: the map gains the entry and the invariant of all runs holds |
| `FullMpt.FullMPT.Delete` | mpt/fullmpt.go:154-157 | One deletion step: the map loses the entry and the invariant of all runs holds |
| `FullMpt.FullMPT.Get` | mpt/fullmpt.go:123-126 | The value the map has for the key, or none |
| `FullMpt.FullMPT.Commitment` | mpt/fullmpt.go:215-218 | The digest of the map, which is defined without a trie and equals the hash of its reference trie, at the cost of exactly the stale nodes |
| `FullMpt.FullMPT.CountRecalculations` | mpt/fullmpt.go:291-293 | The number of stale nodes |
| `FullMpt.FullMPT.Reset` | mpt/fullmpt.go:223-225 | Map and commitment stay; changes count from here |
| `FullMpt.FullMPT.Copy` | mpt/fullmpt.go:295-301 | New nodes with the same map and the bytes of all buffers; a valid dictionary if and only if those bytes are right, as they are when nothing is stale |
| `FullMpt.FullMPT.NewPartial` | mpt/partialmpt.go:45-51 | No proof for no keys, else the proof of the trie of the map; the dictionary keeps map, commitment and flags |
| `FullMpt.FullMPT.NewDelta` | mpt/deltampt.go:21-26 | The delta that bridges from the map at the last reset to the current map |
| `Codec.RoundTripIff` | mpt/node.go:139-165 | For nodes whose lengths fit an int32, reading back the encoding followed by any bytes gives the node and exactly those bytes if and only if no field is empty |
| `Codec.RoundTrip` | mpt/interiornode.go:268-324 | The forward half, over all trees of stubs, leaves, empty leaves and interior nodes with possibly nil children |
| `Codec.Unfilled` | mpt/dictionaryleafnode.go:176-215 | The reader refuses the encoding of any tree with an empty key, value or stub hash in it |
| `Codec.StubRoundTrip` | mpt/stub.go:139-172 | The round trip of a stub with a nonempty hash |
| `Codec.LeafRoundTrip` | mpt/dictionaryleafnode.go:176-228 | The round trip of a leaf with nonempty fields |
| `Codec.SizeIsLength` | mpt/interiornode.go:297-307 | The announced byte size is the length of the encoding |
| `Codec.PrefixFree` | mpt/interiornode.go:309-324 | No encoding is a prefix of another |
| `Codec.NodeReads` | mpt/node.go:139-165 | Whatever bytes are read as a node, the first of them is the number of its kind, exactly as many as its size are taken, none of its fields is empty, and the rest is left |
| `Codec.FieldReads` | mpt/stub.go:139-161 | A field is as long as its announced length, which is positive, and is the bytes after it |
| `Codec.ChildReads` | mpt/interiornode.go:268-292 | A child is nil if and only if its announced length is not positive, and takes as many bytes as its size |
| `Codec.Example` | mpt/interiornode.go:309-324 | The bytes of a tree with nodes of all four kinds written out |
| `Codec.ExampleInts` | mpt/interiornode.go:312 | Lengths are big-endian and signed: 0x12345678 and -2 written out |
| `Merkle.NextPowerIsHeight` | bitcoin/blockchain/merkle.go:45-54 | The padded size is the least power of two that is not smaller than the number of transactions |
| `Merkle.BuildMerkleTreeStore` | bitcoin/blockchain/merkle.go:102-153 | The array holds the transactions, nil padding, and in every later cell the hash of its two cells, nil for none and doubled for one |
| `Merkle.JoinUp` | bitcoin/blockchain/merkle.go:130-150 | The loop with the moving offset |
| `Merkle.StoreRow` | bitcoin/blockchain/merkle.go:102-153 | The array is the rows of the pairing rule one after the other, padded with nil |
| `Merkle.StoreRoot` | bitcoin/blockchain/merkle.go:102-153 | Its last cell is the root by the pairing rule |
| `Merkle.CalcTreeHeight` | utils/merkleproof.go:89-93 | The least height whose power of two covers the count |
| `Merkle.UpIsParent` | utils/merkleproof.go:30-47 | Halving an index and setting the bit of the height is the index of the parent |
| `Merkle.NewMerkleProof` | utils/merkleproof.go:30-47 | The proof collects the siblings on the way to the root, the node itself where it has none |
| `Merkle.Check` | utils/merkleproof.go:68-86 | The check accepts exactly the folds that reach the expected root |
| `Merkle.ProofAccepted` | utils/merkleproof.go:68-86 | Completeness: for every number of transactions and every index the proof is accepted against the root |
| `Merkle.CheckSound` | utils/merkleproof.go:68-86 | Soundness for any position and any length: the check hashed a string that collides with one of the tree; or a hash accepted with a proof of k hashes is an entry k rows below the root; or the proof is longer than the tree is high and the check hashed a string whose digest is a transaction hash |
| `Merkle.SmallRoots` | bitcoin/blockchain/merkle.go:56-67 | The roots of one, two and three transactions written out, left before right and the odd one doubled |
| `Merkle.SmallChecks` | utils/merkleproof.go:68-86 | With a proof of one hash, position 0 is hashed before it and position 1 after it |
| `Merkle.ShortSound` | utils/merkleproof.go:68-86 | The case of proofs not longer than the tree is high |
| `Merkle.LongSound` | utils/merkleproof.go:68-86 | The case of longer proofs |
| `Merkle.OnlyTransactions` | utils/merkleproof.go:68-86 | With a proof as long as the tree is high, only transactions of the block are accepted, or the check collided |
| `Merkle.EveryRowProvable` | utils/merkleproof.go:68-86 | The length is needed: every interior node is accepted with a correspondingly shorter proof |
| `Client.ChainVerifier.VerifyCommitment` | client/chainverify.go:68-131 | Each verdict and each panic with its cause: accepted exactly when included in a known block and either maiden or spending the change of the last accepted record first |
| `Client.ChainVerifier.ProcessHistory` | client/chainverify.go:227-250 | The loop accepts the longest acceptable prefix of what it receives and stops at the first record that is not, with its verdict and the cause of it |
| `Client.ChainVerifier.constructor` | client/chainverify.go:19-44 | A fresh client has accepted nothing |
| `Client.AcceptedIsMined` | client/chainverify.go:105-115 | The transaction of an accepted record is in a block, or the check of its proof collided |
| `Client.SameAgeSameRecord` | client/chainverify.go:117-127 | Records that any two clients accepted equally long after a maiden record are the same transaction with the same commitment, or the check of some record collided |
| `Client.NonEquivocation` | client/chainverify.go:105-127 | Of the sequences two clients accepted, the shorter is a prefix of the longer if and only if both have the maiden record at the same places, or the check of some record collided |
| `Client.OneHistory` | client/chainverify.go:180-207 | Clients that saw the maiden record only first hold sequences of which one is a prefix of the other, or the check of some record collided |
| `Client.MaidenAgain` | client/chainverify.go:120-122 | The condition is needed: in a lawful world, with truthful records and no collision, the maiden record is accepted again at any time, and then neither sequence is a prefix of the other |
| `Client.MaidenAgainHappens` | client/chainverify.go:120-122 | A concrete world, for every hash function, in which that happens: two blocks with one transaction each |
| `Ledger.SaveCommitment` | server/server.go:488-505 | A record replaces the last one with its root, or is appended |
| `Ledger.SaveOrderly` | server/server.go:488-505 | Saving a pending record keeps the list in order, with the served root mined, if and only if no record before the last has its root, the last is mined or has that root, and that root is not the served one |
| `Ledger.RepeatedRoot` | server/server.go:488-505 | Repeating the last root while it is served keeps only the last record pending and still leaves the served root without a mined record |
| `Ledger.SaveBack` | server/server.go:488-505 | Saving a changed record puts it where it was |
| `Ledger.HasPending` | server/server.go:515-523 | Whether any record is still to be mined |
| `Ledger.ProveInclusion` | server/server.go:546-567 | The proof built for a transaction of a block passes the sanity check that would panic |
| `Ledger.MineRecord` | server/server.go:546-570 | A record found in a block gets that block and a proof under its Merkle root |
| `Ledger.SeenKeeps` | server/server.go:525-587 | A block keeps at most the last record pending and roots distinct, and what was mined stays mined |
| `Ledger.GetCommitmentHistory` | server/server.go:786-820 | The mined records after the first one with the named root, all of them for the zero root or an unknown one |
| `Ledger.HistoryContiguous` | server/server.go:786-820 | While at most the last record is pending, that is a contiguous stretch of the list |
| `Ledger.PickNext` | server/server.go:415-443 | The scan for the next record finds one exactly when there is one |
| `Ledger.LoadCommitments` | server/server.go:393-450 | Whatever is returned is a chain from the maiden record, and every well-mined chain is recovered from every permutation of its records |
| `Ledger.OnlySuccessorFollows` | server/server.go:425-437 | In a well-mined chain only the successor of a record spends its change first |
| `Server.Server.constructor` | server/server.go:122-153 | An empty server meets the invariant of all runs; no statement was taken, it is not ready and has committed nothing |
| `Server.Server.Start` | server/server.go:277-334 | The start of a full server: the trigger takes the next place of the special log, the maiden statement is never taken, the first commitment is to what was loaded and the trigger, and its root is the statement after the trigger |
| `Server.Server.MaidenCommit` | server/server.go:322-331 | The part for a server without commitments |
| `Server.Server.RegisterLogStatement` | server/server.go:200-232 | A statement is taken if and only if its index is how many statements of its log were taken before, and then it is the value of the log in the dictionary; otherwise nothing changes |
| `Server.Server.NextIndexIsCount` | server/server.go:190-198 | The next index of a log is how many of its statements were taken |
| `Logs.Taken` | server/server.go:200-232 | Taking the next statement keeps what all runs keep: the statements of each log are numbered 0, 1, 2 and so on, its index is that of the last, and the dictionary holds the last and nothing else |
| `Logs.InOrder` | server/server.go:204-208 | A later statement of a log has a higher number, below the count of the log |
| `Logs.EveryNumber` | server/server.go:204-208 | No number below the count of a log is missing |
| `Server.Server.Snap` | server/server.go:632-677 | A changed root is kept with a copy of its dictionary, and the delta leads there from the dictionary kept before |
| `Server.Server.Keep` | server/server.go:644-675 | The part that keeps the copy, takes the delta and resets |
| `Server.CopyFresh` | server/server.go:650-654 | Copying with nothing stale keeps map and root in nodes of its own |
| `Server.Freeze` | server/server.go:646-675 | Copying, taking the delta and resetting keep map and root, and the copy shares no node |
| `Server.Server.SaveRecord` | server/server.go:488-513 | The list and the last commit height after saving a record |
| `Server.Server.Append` | server/server.go:685-695 | The pending record is saved and the special log takes the root as its next statement; the invariant of all runs holds after it exactly for committable roots |
| `Server.Server.Commit` | server/server.go:631-699 | No change for the same root, an error from the wallet leaves the list and the logs, otherwise the new root is saved as pending and becomes the next statement of the special log; the invariant of all runs then holds if and only if the root was committable |
| `Server.Server.RootNow` | server/server.go:631-639 | The commitment of the dictionary as it is, with nothing stale afterwards |
| `Server.Server.Confirm` | server/server.go:572-575 | Proofs are served from the dictionary of the root just mined if that is the last root |
| `Server.Server.ProcessMerkleProofs` | server/server.go:525-587 | After a block every record in it is mined with a valid proof, the others are untouched, the served root is exactly updated, and the invariant of all runs holds |
| `Server.Server.BlockArrives` | server/server.go:359-391 | One turn of the block watcher: when exactly a commit follows, what the list, the served root, the logs, the dictionary and the last commitment are, and that the invariant of all runs holds if and only if no commit followed or its root was committable |
| `Server.Server.CommitIfDue` | server/server.go:371-389 | The commit part of that turn, with the same new state and the same equivalence |
| `Server.Server.GetProofForKeys` | server/server.go:753-765 | Refused before the first confirmation or for no keys; else the proof for those keys taken from the dictionary of a mined root, which answers each of them as that dictionary does |
| `Server.Server.GetDeltaProofForKeys` | server/server.go:767-769 | The last delta restricted to the keys, which takes the proof under the root kept before to the proof under the last root exactly when no shown empty leaf is new; nothing before the first commit and for no keys, where the source panics |
| `EndToEnd.FirstSpent` | wallet/wallet.go:211-239 | A commitment spends the change of the last one first if and only if the wallet holds it |
| `EndToEnd.BlockKeepsProven` | server/server.go:525-587 | Every block keeps all mined records acceptable to clients |
| `EndToEnd.MinedPartAccepted` | client/chainverify.go:105-127 | The mined part of a list in order is accepted by clients from the start if and only if it is a chain |
| `EndToEnd.AcceptedIffChain` | client/chainverify.go:105-127 | Included records with distinct roots are accepted in order if and only if they form a chain from the maiden root |
| `EndToEnd.FirstMustBeMaiden` | client/chainverify.go:117-127 | What any client accepts begins with the maiden record |
| `EndToEnd.FirstRootIsMaiden` | server/server.go:277-328 | The first root is the maiden one if and only if the dictionary is the maiden statement alone, which on a fresh full server means that the trigger is that statement, up to a break |
| `EndToEnd.AnswerContinues` | server/server.go:786-820 | The history served to a client that has the first mined records is exactly the rest of the mined part if and only if the root it names is not the zero hash, which stands for no root |
| `EndToEnd.SameStatements` | client/commitverify.go:32-66 | Two clients with proofs under records accepted equally long after a maiden record see the same statement for a key both proofs answer if and only if the proofs do not divide the bytes of the leaf differently, or they exhibit a break of the hash of the trie or of the hash of blocks |
| `Runs.RunChain` | server/server.go:359-391 | At every moment of every run in which network, server and wallet each go at their own pace: the list is a chain from the maiden root, and clients accept its mined part, if and only if the first root was the maiden one and every commitment but the last left change |
| `Runs.RunGood` | server/server.go:359-391 | The invariant of those runs: the list is in order, mined records are acceptable, each record spends the change of the one before first exactly when that left change, and the wallet holds the last change, or still what the last commitment spent first |
| `Runs.WalletHasCaughtUp` | wallet/wallet.go:257-271 | A commit that goes through finds the wallet past the block of the commitment before, although the server may see that block first: until then the network refuses what the wallet builds |
| `Runs.NextFollows` | wallet/wallet.go:200-247 | A new record follows the last one if and only if that one left change |
| `Runs.ChangeIffFunds` | wallet/wallet.go:241-244 | A commitment leaves change if and only if the wallet had more than the fee and the smallest output |
| `Runs.ChangeRunsOut` | wallet/wallet.go:233-244 | A concrete run: a wallet with 2000 satoshi commits, is paid again after that is mined, and commits again; the list is no chain |
| `Runs.FreshServerRejected` | server/server.go:277-328 | What a fresh full server mines is never accepted, unless the trigger is the maiden statement or the hash of the trie breaks |
| `Runs.ClientCatchesUp` | client/chainverify.go:211-250 | A client that has the first records mined at any moment of any run and asks at any later moment is answered exactly the later mined records unless it names the zero root, and accepts everything exactly under the condition of the run theorem |
| `Runs.RunGrows` | server/server.go:488-587 | Over every run records are only added and mined, keep their root and transaction, and headers are only added |
| `Runs.MineKeeps` | wallet/wallet.go:131-194 | A new block keeps the invariant |
| `Runs.ServerKeeps` | server/server.go:525-587 | So does the server when it sees a block |
| `Runs.WalletKeeps` | wallet/wallet.go:257-313 | So does the wallet when it processes one |
| `Runs.CommitKeeps` | server/server.go:679-695 | So does a commit |
| `Runs.CommitPossible` | wallet/wallet.go:200-247 | With the fee covered by unspent outputs the wallet can build the commitment to any new root |
| `Bech32.RoundTrip` | bitcoin/bech32/bech32.go:176-252 | Decoding an encoded address gives back prefix and bytes, for all bytes and every ASCII prefix, if and only if the prefix has no capital letter |
| `Bech32.SquashedRoundTrip` | bitcoin/bech32/bech32.go:185-252 | The round trip of five-bit data under a prefix without capitals |
| `Bech32.DecodedLower` | bitcoin/bech32/bech32.go:213-252 | Whatever is decoded has a prefix in lower case |
| `Bech32.ByteSquasher` | bitcoin/bech32/bech32.go:44-73 | The loops with the truncating 32-bit accumulator compute the regrouping function |
| `Bech32.EmitWhole` | bitcoin/bech32/bech32.go:54-58 | The inner loop that takes whole digits off |
| `Bech32.FeedAllKeeps` | bitcoin/bech32/bech32.go:48-59 | Regrouping keeps the bit stream: nothing is lost, added or reordered |
| `Bech32.SquashDown` | bitcoin/bech32/bech32.go:60-65 | From 8 to 5 bits the stream is filled up with fewer than five zeros |
| `Bech32.SquashUp` | bitcoin/bech32/bech32.go:66-71 | From 5 to 8 bits such a filling is recognised and the bytes come back |
| `Bech32.SquashRoundTrip` | bitcoin/bech32/bech32.go:28-73 | Any bytes survive regrouping to five bits and back |
| `Bech32.SquashedBytesToString` | bitcoin/bech32/bech32.go:76-85 | The loop gives the letters, or an error for a byte with high bits set |
| `Bech32.StringToSquashedBytes` | bitcoin/bech32/bech32.go:89-98 | The loop gives the values, or an error for a letter outside the alphabet |
| `Bech32.ValuesOfLetters` | bitcoin/bech32/bech32.go:76-98 | The two tables invert each other |
| `Bech32.PolyMod` | bitcoin/bech32/bech32.go:104-125 | The loops fold one step per value |
| `Bech32.StepXor` | bitcoin/bech32/bech32.go:115-122 | Linearity: a difference in the low 25 bits passes through a step unmixed |
| `Bech32.FoldPacks` | bitcoin/bech32/bech32.go:115-122 | Up to six values after any start add exactly their packed bits |
| `Bech32.SixSteps` | bitcoin/bech32/bech32.go:148-165 | The six parts of a checksum bring the sum to one |
| `Bech32.ChecksumVerifies` | bitcoin/bech32/bech32.go:148-172 | A created checksum verifies for every prefix and all data |
| `Bech32.OneErrorDetected` | bitcoin/bech32/bech32.go:104-125 | Changing one value in data of any length changes the checksum |
| `Bech32.HRPExpand` | bitcoin/bech32/bech32.go:128-145 | The array of high bits, a zero and low bits of the prefix |
| `Addresses.PrefixParts` | bitcoin/bech32/bech32.go:128-145 | Of an ASCII prefix of length n, each character code is 32 times entry i plus entry i + n + 1 of the expansion, which are below 8 and 32, with a zero between the halves |
| `Bech32.CreateChecksum` | bitcoin/bech32/bech32.go:148-165 | The six parts written over the six zeros |
| `Addresses.ChecksumUnique` | bitcoin/bech32/bech32.go:148-172 | Six five-bit values that verify behind prefix and data are the checksum made for them |
| `Addresses.Alphabet` | bitcoin/bech32/bech32.go:76-98 | The 32 letters written out in order |
| `Addresses.SquashBack` | bitcoin/bech32/bech32.go:44-73 | Five-bit data that regroups to bytes comes back from them |
| `Addresses.ExampleSquash` | bitcoin/bech32/bech32.go:44-73 | The byte 255 regroups to 31 and 28 |
| `Addresses.DecodedEncodes` | bitcoin/bech32/bech32.go:199-252 | What decodes is in one case, and encoding the result gives it back in lower case |
| `Addresses.DecodesIff` | bitcoin/bech32/bech32.go:199-252 | A string decodes to a prefix and data if and only if it is in one case, the prefix has no capitals, and encoding them gives the string in lower case |
| `Addresses.EncodeEmpty` | bitcoin/bech32/bech32.go:182-197 | Encoding five-bit data gives the empty string if and only if some value has more than five bits |
| `Addresses.Example` | bitcoin/bech32/bech32.go:176-252 | The empty data with prefix a is a12uel5l, as in BIP 173, and decodes from it in either case |
| `Wallet.AddInputsAndChange` | wallet/wallet.go:200-247 | Fails exactly when the total is too small; otherwise every output held is spent once, the change of the last commitment first if it is held, and what is not needed is returned if it exceeds the minimum output |
| `Wallet.ChangeBoundary` | wallet/wallet.go:233-244 | Of a commitment with a fee of 1000: from 2000 satoshi nothing is returned, from 2001 the change is 1001 |
| `Wallet.FindChange` | wallet/wallet.go:211-217 | Finds the change of the last commitment if it is held |
| `Wallet.LineUp` | wallet/wallet.go:219-231 | The two loops put it first, keep the others in order, and add up everything |
| `Wallet.AddInputs` | wallet/wallet.go:237-239 | One input per output held |
| `Wallet.FrontedSame` | wallet/wallet.go:219-231 | Putting one first keeps the total and the inputs as a multiset |
| `Wallet.Balance` | wallet/wallet.go:249-255 | The sum of the values |
| `Wallet.MinedCommit` | wallet/wallet.go:411-444 | A mined commitment leaves the wallet with one output, its own change, worth everything but the fee |
| `Wallet.CommitsChain` | wallet/wallet.go:411-444 | Over every run of mined commitments, each has as its only input the change of the one before, and the run costs one fee each |
| `Wallet.Wallet.constructor` | wallet/wallet.go:42-99 | A new wallet holds nothing |
| `Wallet.Wallet.Commit` | wallet/wallet.go:411-444 | A commitment transaction that carries the root and spends everything; it fails only without the fee or if the network refuses |
| `Wallet.Wallet.RegisterUtxo` | wallet/wallet.go:315-325 | The outpoint holds the given output, all others are as before |
| `Wallet.Wallet.Remove` | wallet/wallet.go:294-311 | The outpoint holds nothing, all others are as before |
| `Wallet.Wallet.MarkTxInputsAsSpent` | wallet/wallet.go:293-313 | Exactly the inputs are gone |
| `Wallet.Wallet.ProcessTransaction` | wallet/wallet.go:277-291 | Outputs to the wallet appear, then inputs disappear |
| `Wallet.Wallet.ProcessAll` | wallet/wallet.go:257-271 | The net effect of all transactions of a block, outpoint by outpoint |
| `Wallet.Wallet.Rescan` | wallet/wallet.go:131-194 | Processing any suffix of the processed transactions again leaves what is held as it was |
| `Wallet.Replay` | wallet/wallet.go:277-337 | The same as a statement about the net effect on one outpoint |
| `Wallet.SpentIsGone` | wallet/wallet.go:293-313 | Once a transaction spends an outpoint, nothing is left of it |
| `Wallet.HeldIff` | wallet/wallet.go:277-313 | Of any transactions in any order, an output is held if and only if one made it for the wallet and neither that one nor a later one spent it |
| `Wallet.CreatedStays` | wallet/wallet.go:277-288 | A created output that nothing spends stays |

## Left out

- SHA-256, ECDSA, signing, the databases, the network and the RPC layer: parameters, maps or absent.
- Goroutines and locks: each operation is one atomic step; `RegisterLogStatement` releases its lock
  between its check and its write, which the model does not show.
- Restart of the server (`loadState`, `loadLogs`): the reload path copies a trie before hashing it, which
  `Invariants.CopyBeforeHashing` shows to be wrong.
- Servers that are not full or keep no commitment tree, and log processors that are sent deltas.
- Aliasing of key and value slices with their callers, and of the root hash buffer that `Commit` passes
  on as a log statement: keys, values and hashes are immutable here.
- Proofs and deltas as heap nodes: they are values whose cached hashes are justified by `Partial.CopyHash`
  and `Delta.DeltaHash`.
- `MarkChangedAll`, the node counters, `Equals`, graph output and `Dispose`: easy or without effect on results.
- The reader of `DeserializeNode` as a stateful object: it is a function from bytes to a node and the
  remaining bytes.
- 64-bit overflow of values, indices and counters: numbers are unbounded, and the Merkle tree of a
  block is taken to be less than 64 high.
- Merkle.NextPowerIsHeight: models the floating-point logarithm of the source as the exact one.
- Merkle.BuildMerkleTreeStore: takes the transaction hashes as given, so the witness variant, which
  only changes those hashes, is not separate; blocks without transactions are left out.
- Client.ChainVerifier.VerifyCommitment: takes the parsed transaction as part of the record and leaves out
  the loop that asks for headers and tries again.
- Client.ChainVerifier.constructor: a client without a past; reading the last commitment back from the
  database is left out.
- Client.SameAgeSameRecord: takes as hypotheses what the client does not check: that the raw transaction is
  the one its hash names, that it carries the commitment, and that the Merkle proof has the length of
  the tree. The same holds for `Client.NonEquivocation`, `Client.OneHistory` and `EndToEnd.SameStatements`.
- Server.Server.Commit: takes the outcome of the wallet as a parameter; that the special log always changes
  the next root is not claimed.
- Runs.RunGood: takes as hypotheses that roots do not repeat, that nobody else spends the change of the last
  commitment, that transaction hashes name transactions, and that the network takes no transaction that
  spends what is spent; blocks are only added, never reorganised away. The same holds for the other
  results of `Runs`.
- Ledger.LoadCommitments: takes the parsed transactions as part of the records and leaves out the last
  commit height it sets.
- Wallet.CommitsChain: takes as hypotheses that a commitment is mined before the next is made, that its
  transaction hash is new, and that nobody owns the data output.
- Wallet.Wallet.constructor: an empty wallet; the key file, the database and the chain state are left out.
- Wallet.Wallet.Commit: leaves out signing and its failure; `broadcast` stands for the network.
- Wallet.Wallet.Rescan: the effect of reprocessing blocks, without the loop that finds them.
- Wallet reorganisations: the source does not undo orphaned blocks.
- Bech32.StringToSquashedBytes: for ASCII strings; the source indexes a table by character.
- Bech32.RoundTrip: for ASCII prefixes; other characters and the segregated-witness wrappers are left out.
- Compact difficulty targets, retargeting, transaction and block parsing, scripts, base58, WIF and the
  user interfaces.
