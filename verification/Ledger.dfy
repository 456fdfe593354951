/** The server's list of commitment records: saving, mining, serving and reloading it. */
module Ledger {
  import opened Bits
  import opened Trie
  import opened Merkle
  import opened Records

  type Log = seq<Record>

  /** Only the last record may still wait to be mined. */
  predicate OnlyLastPending(cs: Log)
  {
    forall i :: 0 <= i < |cs| - 1 ==> cs[i].includedIn.Some?
  }

  predicate NonePending(cs: Log)
  {
    forall i :: 0 <= i < |cs| ==> cs[i].includedIn.Some?
  }

  /** No two records carry the same root. */
  predicate DistinctRoots(cs: Log)
  {
    forall i, j :: 0 <= i < j < |cs| ==> cs[i].commitment != cs[j].commitment
  }

  /** No record was triggered after block height `at`. */
  predicate Timely(cs: Log, at: int)
  {
    forall i :: 0 <= i < |cs| ==> cs[i].triggeredAt <= at
  }

  /** Some mined record carries the root `r`. */
  predicate MinedRoot(cs: Log, r: Bytes)
  {
    exists i :: 0 <= i < |cs| && cs[i].commitment == r && cs[i].includedIn.Some?
  }

  // ----- saving -----

  /** The last record with root `c`, or -1. */
  function LastIndex(cs: Log, c: Digest): (i: int)
    ensures -1 <= i < |cs|
    ensures i >= 0 ==> cs[i].commitment == c
    ensures forall j :: i < j < |cs| ==> cs[j].commitment != c
  {
    if cs == [] then -1
    else if cs[|cs| - 1].commitment == c then |cs| - 1
    else LastIndex(cs[..|cs| - 1], c)
  }

  /** `saveCommitment`: overwrite the record with the same root, else append. */
  function Save(cs: Log, c: Record): Log
  {
    var i := LastIndex(cs, c.commitment);
    if i >= 0 then cs[i := c] else cs + [c]
  }

  method SaveCommitment(cs: Log, c: Record) returns (r: Log)
    ensures r == Save(cs, c)
  {
    var alreadyAtIdx := -1;
    for i := 0 to |cs|
      invariant alreadyAtIdx == LastIndex(cs[..i], c.commitment)
    {
      assert cs[..i + 1][..i] == cs[..i];
      if c.commitment == cs[i].commitment {
        alreadyAtIdx := i;
      }
    }
    assert cs[..|cs|] == cs;
    if alreadyAtIdx > -1 {
      r := cs[alreadyAtIdx := c];
    } else {
      r := cs + [c];
    }
  }

  predicate NewRoot(cs: Log, root: Bytes)
  {
    forall i :: 0 <= i < |cs| ==> cs[i].commitment != root
  }

  /** A pending record with a new root, saved to a fully mined list. */
  lemma SaveFresh(cs: Log, c: Record, r: Bytes)
    requires NonePending(cs) && DistinctRoots(cs) && NewRoot(cs, c.commitment) && c.includedIn.None?
    ensures Save(cs, c) == cs + [c] && OnlyLastPending(Save(cs, c)) && DistinctRoots(Save(cs, c))
    ensures MinedRoot(cs, r) ==> MinedRoot(Save(cs, c), r)
  {
    if MinedRoot(cs, r) {
      var i :| 0 <= i < |cs| && cs[i].commitment == r && cs[i].includedIn.Some?;
      assert (cs + [c])[i] == cs[i];
    }
  }

  /**
   The list is in order for serving: at most the last record is pending, roots differ, and the root
   served, if any, is mined.
   */
  predicate Orderly(cs: Log, served: Option<Bytes>)
  {
    OnlyLastPending(cs) && DistinctRoots(cs) && (served.Some? ==> MinedRoot(cs, served.value))
  }

  /**
   No record before the last has the root, the last is mined or the one with that root, and the root
   is not the one being served.
   */
  predicate Committable(cs: Log, root: Bytes, served: Option<Bytes>)
  {
    && (forall i :: 0 <= i < |cs| - 1 ==> cs[i].commitment != root)
    && (NonePending(cs) || (cs != [] && cs[|cs| - 1].commitment == root))
    && served != Some(root)
  }

  lemma NeedsCommittable(cs: Log, c: Record, served: Option<Bytes>)
    requires Orderly(cs, served) && c.includedIn.None? && Orderly(Save(cs, c), served)
    ensures Committable(cs, c.commitment, served)
  {
    hide MinedRoot;
    var k := LastIndex(cs, c.commitment);
    if k < 0 {
      assert Save(cs, c) == cs + [c];
      assert forall i :: 0 <= i < |cs| ==> Save(cs, c)[i] == cs[i];
      if served.Some? {
        OnlyOne(cs, served.value, c.commitment);
      }
    } else {
      assert Save(cs, c)[k].includedIn.None?;
      assert k == |cs| - 1;
      if served == Some(c.commitment) {
        NotMined(cs[k := c], k, c.commitment);
      }
    }
  }

  /** A root that no record has is not a mined one. */
  lemma OnlyOne(cs: Log, r: Bytes, root: Bytes)
    requires MinedRoot(cs, r) && forall i :: 0 <= i < |cs| ==> cs[i].commitment != root
    ensures r != root
  {
  }

  lemma NotMined(cs: Log, k: nat, root: Bytes)
    requires DistinctRoots(cs) && k < |cs| && cs[k].commitment == root && cs[k].includedIn.None?
    ensures !MinedRoot(cs, root)
  {
  }

  lemma CommittableSuffices(cs: Log, c: Record, served: Option<Bytes>)
    requires Orderly(cs, served) && c.includedIn.None? && Committable(cs, c.commitment, served)
    ensures Orderly(Save(cs, c), served)
  {
    var k := LastIndex(cs, c.commitment);
    assert k < 0 || k == |cs| - 1;
    var r := Save(cs, c);
    assert forall i :: 0 <= i < |cs| && i != k ==> r[i] == cs[i];
    if served.Some? {
      var i :| 0 <= i < |cs| && cs[i].commitment == served.value && cs[i].includedIn.Some?;
      assert r[i] == cs[i];
    }
  }

  /** Saving a new pending record keeps the list in order if and only if its root is committable. */
  lemma SaveOrderly(cs: Log, c: Record, served: Option<Bytes>)
    requires Orderly(cs, served) && c.includedIn.None?
    ensures Orderly(Save(cs, c), served) <==> Committable(cs, c.commitment, served)
  {
    hide Orderly, Committable, Save;
    if Committable(cs, c.commitment, served) {
      CommittableSuffices(cs, c, served);
    }
    if Orderly(Save(cs, c), served) {
      NeedsCommittable(cs, c, served);
    }
  }

  /** A root that no record has can be committed to when nothing is pending. */
  lemma NewRootCommittable(cs: Log, root: Bytes, served: Option<Bytes>)
    requires Orderly(cs, served) && NonePending(cs) && NewRoot(cs, root)
    ensures Committable(cs, root, served)
  {
    hide MinedRoot;
    if served.Some? {
      OnlyOne(cs, served.value, root);
    }
  }

  /** Repeating the last root while it is served leaves only the last record pending, yet nothing mined has the root. */
  lemma RepeatedRoot(r: Record, c: Record)
    requires r.includedIn.Some? && c.includedIn.None? && c.commitment == r.commitment
    ensures Orderly([r], Some(r.commitment)) && OnlyLastPending(Save([r], c))
    ensures !Orderly(Save([r], c), Some(r.commitment))
  {
    assert [r][0].commitment == r.commitment && MinedRoot([r], r.commitment);
    assert LastIndex([r], c.commitment) == 0 && Save([r], c) == [c];
    NotMined([c], 0, r.commitment);
  }

  lemma SaveFirst(c: Record)
    ensures Save([], c) == [c]
  {
  }

  lemma SaveTimely(cs: Log, c: Record, at: int, at': int)
    requires Timely(cs, at) && at <= at' && c.triggeredAt <= at'
    ensures Timely(Save(cs, c), at')
  {
  }

  /** With distinct roots, saving a changed record puts it back where it was. */
  lemma SaveBack(cs: Log, i: nat, c: Record)
    requires DistinctRoots(cs) && i < |cs| && c.commitment == cs[i].commitment
    ensures Save(cs[i := c], c) == cs[i := c]
  {
    var k := LastIndex(cs[i := c], c.commitment);
    assert cs[i := c][i].commitment == c.commitment;
    assert k == i;
  }

  // ----- serving -----

  /** The first record with root `c`, or -1. */
  function FirstIndex(cs: Log, c: Digest): (i: int)
    ensures -1 <= i < |cs|
    ensures i >= 0 ==> cs[i].commitment == c
    ensures forall j :: 0 <= j < (if i < 0 then |cs| else i) ==> cs[j].commitment != c
  {
    if cs == [] then -1
    else if cs[0].commitment == c then 0
    else
      var r := FirstIndex(cs[1..], c);
      assert forall j :: 1 <= j < |cs| ==> cs[j] == cs[1..][j - 1];
      if r < 0 then -1 else r + 1
  }

  /** The mined records of a list, in order. */
  function Mined(cs: Log): Log
  {
    if cs == [] then []
    else Mined(cs[..|cs| - 1]) + (if cs[|cs| - 1].includedIn.Some? then [cs[|cs| - 1]] else [])
  }

  lemma MinedAppend(cs: Log, c: Record)
    ensures Mined(cs + [c]) == Mined(cs) + (if c.includedIn.Some? then [c] else [])
  {
    assert (cs + [c])[..|cs|] == cs;
  }

  /** Where the answer to a client that names the root `since` begins; the zero root names none. */
  function HistoryStart(cs: Log, since: Digest): (i: nat)
    ensures i <= |cs|
  {
    if since == ZERO then 0 else FirstIndex(cs, since) + 1
  }

  /** `GetCommitmentHistory`: the mined records after the one with root `since`, all of them for the zero root. */
  method GetCommitmentHistory(cs: Log, since: Digest) returns (r: Log)
    ensures r == Mined(cs[HistoryStart(cs, since)..])
  {
    var startIdx := -1;
    if since != ZERO {
      var i := 0;
      while i < |cs|
        invariant 0 <= i <= |cs| && startIdx == -1
        invariant forall j :: 0 <= j < i ==> cs[j].commitment != since
      {
        if cs[i].commitment == since {
          startIdx := i;
          break;
        }
        i := i + 1;
      }
      assert startIdx == FirstIndex(cs, since);
    }
    var tail := cs[startIdx + 1..];
    r := [];
    for k := 0 to |tail|
      invariant r == Mined(tail[..k])
    {
      assert tail[..k + 1] == tail[..k] + [tail[k]];
      MinedAppend(tail[..k], tail[k]);
      if tail[k].includedIn.Some? {
        r := r + [tail[k]];
      }
    }
    assert tail[..|tail|] == tail;
  }

  lemma {:induction false} MinedAll(cs: Log)
    requires NonePending(cs)
    ensures Mined(cs) == cs
  {
    if cs != [] {
      var n := |cs| - 1;
      MinedAll(cs[..n]);
      assert cs == cs[..n] + [cs[n]];
    }
  }

  /** Where the mined part of the list ends. */
  function MinedEnd(cs: Log): (e: nat)
    ensures e <= |cs|
  {
    if |cs| > 0 && cs[|cs| - 1].includedIn.None? then |cs| - 1 else |cs|
  }

  /** While only the last record can be pending, a served history is a contiguous stretch of the list. */
  lemma HistoryContiguous(cs: Log, start: nat)
    requires OnlyLastPending(cs) && start <= |cs|
    ensures Mined(cs[start..]) == if start <= MinedEnd(cs) then cs[start..MinedEnd(cs)] else []
  {
    var e := MinedEnd(cs);
    if start <= e {
      MinedAll(cs[start..e]);
      if e < |cs| {
        assert cs[start..] == cs[start..e] + [cs[e]];
        MinedAppend(cs[start..e], cs[e]);
      } else {
        assert cs[start..] == cs[start..e];
      }
    }
  }

  // ----- mining -----

  datatype Block = Block(hash: Digest, merkleRoot: Digest, txids: seq<Digest>)

  /** A block the network accepts: its header commits to its transactions. */
  ghost predicate ValidBlock(h: HashFn, b: Block)
  {
    0 < |b.txids| <= Pow2(63) && b.merkleRoot == Root(h, b.txids)
  }

  lemma HeightBound(n: nat, e: nat)
    requires n <= Pow2(63) && IsHeight(n, e)
    ensures e < 64
  {
    if e > 64 {
      Pow2Monotone(63, e - 1);
    }
  }

  /** The proof the server attaches to a mined record passes its own sanity check, which panics otherwise. */
  method ProveInclusion(h: HashFn, b: Block, txHash: Digest) returns (proof: MerkleProof)
    requires ValidBlock(h, b) && txHash in b.txids
    ensures Fold(h, txHash, proof.position, proof.hashes, |proof.hashes|) == b.merkleRoot
    ensures IsHeight(|b.txids|, |proof.hashes|)
  {
    hide IsHeight, IsStore, Siblings, Root, Pow2;
    var store, e := BuildMerkleTreeStore(h, b.txids);
    HeightBound(|b.txids|, e);
    ghost var m := store[..];
    LeavesFirst(h, b.txids, m, e);
    var hashIdx := 0;
    while store[hashIdx] != Some(txHash)
      invariant hashIdx < |b.txids| <= |m| == store.Length && txHash in b.txids[hashIdx..] && m == store[..]
      decreases |b.txids| - hashIdx
    {
      assert b.txids[hashIdx..] == [b.txids[hashIdx]] + b.txids[hashIdx + 1..];
      hashIdx := hashIdx + 1;
    }
    proof := NewMerkleProof(store[..], hashIdx, h, b.txids, e);
    ProofAccepted(h, b.txids, hashIdx, proof.hashes, e);
    var ok := Check(h, proof, txHash, b.merkleRoot);
    assert ok;
  }

  lemma LeavesFirst(h: HashFn, hs: seq<Digest>, m: seq<Option<Digest>>, e: nat)
    requires IsStore(h, hs, m, e)
    ensures |hs| <= |m| && forall i :: 0 <= i < |hs| ==> m[i] == Some(hs[i])
  {
  }

  /** One of the first `i` records carries `root` and is in the block. */
  predicate FoundIn(cs: Log, b: Block, root: Bytes, i: nat)
    requires i <= |cs|
  {
    exists k :: 0 <= k < i && cs[k].commitment == root && cs[k].txHash in b.txids
  }

  /** What a block does to a record: nothing, or it is mined there with a proof any client accepts. */
  ghost predicate AfterBlock(h: HashFn, b: Block, c: Record, d: Record)
  {
    if c.txHash in b.txids then
      && d == c.(includedIn := Some(b.hash), proof := d.proof)
      && Fold(h, c.txHash, d.proof.position, d.proof.hashes, |d.proof.hashes|) == b.merkleRoot
    else d == c
  }

  method MineRecord(h: HashFn, b: Block, c: Record) returns (d: Record)
    requires ValidBlock(h, b) && c.txHash in b.txids
    ensures AfterBlock(h, b, c, d) && d.includedIn.Some?
    ensures d.commitment == c.commitment && d.triggeredAt == c.triggeredAt
  {
    hide Fold;
    var proof := ProveInclusion(h, b, c.txHash);
    d := c.(proof := proof, includedIn := Some(b.hash));
  }

  /** The first `i` records have seen the block. */
  ghost predicate Seen(h: HashFn, b: Block, before: Log, cs: Log, i: nat)
  {
    && |cs| == |before| && i <= |cs|
    && (forall k :: 0 <= k < i ==> AfterBlock(h, b, before[k], cs[k]))
    && (forall k :: i <= k < |cs| ==> cs[k] == before[k])
  }

  lemma SeenOne(h: HashFn, b: Block, before: Log, cs: Log, i: nat, d: Record)
    requires Seen(h, b, before, cs, i) && i < |cs| && DistinctRoots(before) && AfterBlock(h, b, cs[i], d)
    ensures Save(cs[i := d], d) == cs[i := d] && Seen(h, b, before, cs[i := d], i + 1)
    ensures d.includedIn.Some? ==> MinedRoot(cs[i := d], d.commitment)
  {
    SeenKeeps(h, b, before, cs, i, []);
    SaveBack(cs, i, d);
    assert cs[i := d][i] == d;
  }

  lemma SeenSkip(h: HashFn, b: Block, before: Log, cs: Log, i: nat)
    requires Seen(h, b, before, cs, i) && i < |cs| && cs[i].txHash !in b.txids
    ensures Seen(h, b, before, cs, i + 1)
  {
  }

  /** Blocks keep the list tidy, and what was mined stays mined. */
  lemma SeenKeeps(h: HashFn, b: Block, before: Log, cs: Log, i: nat, r: Bytes)
    requires Seen(h, b, before, cs, i)
    ensures DistinctRoots(before) ==> DistinctRoots(cs)
    ensures OnlyLastPending(before) ==> OnlyLastPending(cs)
    ensures MinedRoot(before, r) ==> MinedRoot(cs, r)
  {
    assert forall k :: 0 <= k < |cs| ==> cs[k].commitment == before[k].commitment;
    assert forall k :: 0 <= k < |cs| ==> (before[k].includedIn.Some? ==> cs[k].includedIn.Some?);
    if MinedRoot(before, r) {
      var k :| 0 <= k < |before| && before[k].commitment == r && before[k].includedIn.Some?;
      assert cs[k].commitment == r;
    }
  }

  lemma SeenMore(h: HashFn, b: Block, before: Log, cs: Log, i: nat, d: Record, r: Bytes)
    requires Seen(h, b, before, cs, i) && i < |cs| && AfterBlock(h, b, cs[i], d) && MinedRoot(cs, r)
    ensures MinedRoot(cs[i := d], r)
  {
    var k :| 0 <= k < |cs| && cs[k].commitment == r && cs[k].includedIn.Some?;
    assert cs[i := d][k].commitment == r;
  }

  /** `getPendingCommitments`, of which only emptiness matters. */
  method HasPending(cs: Log) returns (pending: bool)
    ensures pending <==> !NonePending(cs)
  {
    pending := false;
    for i := 0 to |cs|
      invariant pending <==> exists k :: 0 <= k < i && cs[k].includedIn.None?
    {
      if cs[i].includedIn.None? {
        pending := true;
      }
    }
  }

  lemma SeenRoots(h: HashFn, b: Block, before: Log, cs: Log, i: nat, root: Bytes)
    requires Seen(h, b, before, cs, i) && NewRoot(before, root)
    ensures NewRoot(cs, root)
  {
    assert forall k :: 0 <= k < |cs| ==> cs[k].commitment == before[k].commitment;
  }

  // ----- the chain -----

  /** The first record carries the maiden root, and each further one spends its predecessor's change. */
  ghost predicate IsChain(maiden: Digest, cs: Log)
  {
    && (|cs| > 0 ==> cs[0].commitment == maiden)
    && forall i :: 0 < i < |cs| ==> Follows(cs[i - 1], cs[i])
  }

  /**
   A chain as the block chain can hold it: transaction hashes differ, only the first record is a
   maiden record, every transaction has an input, and the first one spends none of the others.
   */
  ghost predicate WellMined(maiden: Digest, cs: Log)
  {
    && IsChain(maiden, cs)
    && (forall i, j :: 0 <= i < j < |cs| ==> cs[i].txHash != cs[j].txHash)
    && (forall i :: 0 < i < |cs| ==> cs[i].commitment != maiden)
    && (forall i :: 0 <= i < |cs| ==> |cs[i].tx.inputs| > 0 && !Follows(cs[i], cs[0]))
  }

  /** In a well-mined chain the record after `cs[i]` is the only one that follows it. */
  lemma OnlySuccessorFollows(maiden: Digest, cs: Log, i: nat, j: nat)
    requires WellMined(maiden, cs) && i < |cs| && j < |cs| && Follows(cs[i], cs[j])
    ensures j == i + 1
  {
    if j > 0 {
      assert Follows(cs[j - 1], cs[j]);
      assert cs[j - 1].txHash == cs[i].txHash;
    }
  }

  /** The first record in `all` that the scan would pick next, -1 if none, or a panic on a record without inputs. */
  datatype Pick = Found(index: nat) | Nothing | Panic

  method PickNext(all: Log, maiden: Digest, out: Log) returns (p: Pick)
    ensures p.Found? ==> p.index < |all|
    ensures p.Found? ==> if out == [] then all[p.index].commitment == maiden else Follows(out[|out| - 1], all[p.index])
    ensures p.Nothing? ==> forall j :: 0 <= j < |all| ==>
              if out == [] then all[j].commitment != maiden else !Follows(out[|out| - 1], all[j])
    ensures p.Panic? ==> out != [] && exists j :: 0 <= j < |all| && |all[j].tx.inputs| == 0
  {
    for i := 0 to |all|
      invariant forall j :: 0 <= j < i ==>
                  if out == [] then all[j].commitment != maiden else !Follows(out[|out| - 1], all[j])
    {
      if out == [] {
        if all[i].commitment == maiden {
          return Found(i);
        }
      } else {
        if |all[i].tx.inputs| == 0 {
          return Panic;
        }
        if all[i].tx.inputs[0].index == 1 && all[i].tx.inputs[0].hash == out[|out| - 1].txHash {
          return Found(i);
        }
      }
    }
    return Nothing;
  }

  /**
   `loadCommitments`: from the records in any order, the chain in its order. None stands for the
   source's panics. Whatever it returns is a chain of as many of the given records; and any
   well-mined chain is recovered from every permutation of it.
   */
  method LoadCommitments(all: Log, maiden: Digest) returns (r: Option<Log>)
    ensures r.Some? ==> |r.value| == |all| && IsChain(maiden, r.value) && forall c :: c in r.value ==> c in all
    ensures forall chain :: WellMined(maiden, chain) && multiset(chain) == multiset(all) ==> r == Some(chain)
  {
    var out: Log := [];
    while |out| != |all|
      invariant |out| <= |all| && IsChain(maiden, out) && forall c :: c in out ==> c in all
      invariant forall chain :: WellMined(maiden, chain) && multiset(chain) == multiset(all) ==> out <= chain
      decreases |all| - |out|
    {
      var p := PickNext(all, maiden, out);
      forall chain | WellMined(maiden, chain) && multiset(chain) == multiset(all)
        ensures p.Found? && out + [all[p.index]] <= chain
      {
        PickIsNext(all, maiden, out, chain, p);
      }
      if !p.Found? {
        return None;
      }
      out := out + [all[p.index]];
    }
    forall chain | WellMined(maiden, chain) && multiset(chain) == multiset(all)
      ensures out == chain
    {
      assert |chain| == |multiset(chain)| == |multiset(all)| == |all|;
    }
    r := Some(out);
  }

  lemma InBoth(all: Log, chain: Log)
    requires multiset(chain) == multiset(all)
    ensures |chain| == |all|
    ensures forall j :: 0 <= j < |all| ==> all[j] in chain
    ensures forall j :: 0 <= j < |chain| ==> chain[j] in all
  {
    assert |chain| == |multiset(chain)| == |multiset(all)| == |all|;
    forall j | 0 <= j < |all|
      ensures all[j] in chain
    {
      assert all[j] in multiset(all);
    }
    forall j | 0 <= j < |chain|
      ensures chain[j] in all
    {
      assert chain[j] in multiset(chain);
    }
  }

  /** What the scan picks is the chain's next record. */
  lemma PickIsNext(all: Log, maiden: Digest, out: Log, chain: Log, p: Pick)
    requires WellMined(maiden, chain) && multiset(chain) == multiset(all) && out <= chain && |out| < |all|
    requires p.Found? ==> p.index < |all|
    requires p.Found? ==> if out == [] then all[p.index].commitment == maiden else Follows(out[|out| - 1], all[p.index])
    requires p.Nothing? ==> forall j :: 0 <= j < |all| ==>
               if out == [] then all[j].commitment != maiden else !Follows(out[|out| - 1], all[j])
    requires p.Panic? ==> out != [] && exists j :: 0 <= j < |all| && |all[j].tx.inputs| == 0
    ensures p.Found? && out + [all[p.index]] <= chain
  {
    InBoth(all, chain);
    var n := |out|;
    assert chain[n] in all;
    if n > 0 {
      assert Follows(chain[n - 1], chain[n]) && out[n - 1] == chain[n - 1];
    }
    if p.Found? {
      var c := all[p.index];
      assert c in chain;
      var j :| 0 <= j < |chain| && chain[j] == c;
      if n > 0 {
        OnlySuccessorFollows(maiden, chain, n - 1, j);
      }
      assert j == n;
    }
  }
}
