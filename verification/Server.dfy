/** The commitment server: appending to logs, committing roots, and following blocks. */
module Server {
  import opened Bits
  import opened Trie
  import opened Records
  import opened Ledger
  import opened FullMpt
  import M = Machine
  import C = Canonical
  import P = Partial
  import D = Delta
  import Merkle
  import L = Logs

  /** The objects of a dictionary. */
  ghost function Foot(m: FullMPT?): set<object>
    reads m
  {
    if m == null then {} else {m} + m.fp
  }

  /** A dictionary kept to serve proofs: a copy with nothing stale. */
  ghost predicate Snapshot(h: HashFn, m: FullMPT?)
    reads m, Foot(m)
  {
    m != null ==> m.Valid() && m.h == h && m.n == 32 && m.Fresh()
  }

  /** A copy with nothing stale is a dictionary of its own with the same map and root. */
  method CopyFresh(m: FullMPT) returns (copy: FullMPT)
    requires m.Valid() && m.Fresh()
    ensures fresh(copy) && fresh(copy.fp) && copy.Valid() && copy.h == m.h && copy.n == m.n && copy.Fresh()
    ensures copy.RootHash() == m.RootHash() && copy.state.dict == m.state.dict
  {
    hide *;
    copy := m.Copy();
  }

  /** A copy to serve proofs from and the delta since the last reset, after which the changes count as sent. */
  method Freeze(m: FullMPT) returns (copy: FullMPT, delta: Trie)
    requires m.Valid() && m.Fresh()
    modifies m, m.fp
    ensures m.Valid() && m.fp == old(m.fp) && m.state.dict == old(m.state.dict) && m.RootHash() == old(m.RootHash())
    ensures fresh(copy) && fresh(copy.fp) && copy.Valid() && copy.h == m.h && copy.n == m.n && copy.Fresh()
    ensures copy.RootHash() == m.RootHash() && copy.state.dict == m.state.dict && copy.RootShape() == m.state.base
    ensures D.BridgesFrom(m.h, m.n, old(m.state.base), copy.state.dict, delta) && D.Shallow(delta, 0, m.n)
  {
    hide *;
    copy := m.Copy();
    delta := m.NewDelta();
    m.Reset();
  }

  /** `root` is the commitment of the dictionary `d`. */
  ghost predicate RootIs(h: HashFn, d: C.Dict, root: Bytes)
  {
    C.Under(d, [], 32) && root == HashOf(h, C.RootOf(d, 32))
  }

  lemma RootHashIs(m: FullMPT)
    requires m.Valid() && m.n == 32
    ensures RootIs(m.h, m.state.dict, m.RootHash())
  {
  }

  lemma UnderOf(m: FullMPT)
    requires m.Valid()
    ensures C.Under(m.state.dict, [], m.n)
  {
  }

  /** Outcome of a commit. */
  datatype Outcome = NoChange | WalletFailed | Committed

  /** `h` hashes trie nodes, once; `g` hashes the pairs of a block's Merkle tree, twice. */
  class Server {
    const h: HashFn
    const g: HashFn
    const commitEveryNBlocks: int
    var isReady: bool
    var logIDIndex: map<Bytes, nat>
    var fullmpt: FullMPT
    var lastCommitMpt: FullMPT?
    var lastConfirmedCommitMpt: FullMPT?
    var lastCommitment: Digest
    var lastDelta: Option<Trie>
    ghost var deltaBase: Trie
    ghost var taken: seq<L.Entry>
    var lastCommitHeight: int
    var commitments: Log

    /**
     The three dictionaries are separate, the kept one is the last root's, and the last delta leads there
     from `deltaBase`, the trie kept before. The dictionary holds the last of the statements `taken` for each
     log, which are numbered in order.
     */
    ghost predicate Valid()
      reads this, fullmpt, fullmpt.fp
      reads lastCommitMpt, Foot(lastCommitMpt), lastConfirmedCommitMpt, Foot(lastConfirmedCommitMpt)
    {
      && fullmpt.Valid() && fullmpt.h == h && fullmpt.n == 32
      && Snapshot(h, lastCommitMpt) && Snapshot(h, lastConfirmedCommitMpt)
      && this !in Foot(fullmpt) + Foot(lastCommitMpt) + Foot(lastConfirmedCommitMpt)
      && Foot(fullmpt) !! Foot(lastCommitMpt) && Foot(fullmpt) !! Foot(lastConfirmedCommitMpt)
      && Foot(lastCommitMpt) !! Foot(lastConfirmedCommitMpt)
      && (lastCommitMpt != null ==>
            lastCommitMpt.RootHash() == lastCommitment && fullmpt.state.base == lastCommitMpt.RootShape())
      && (commitments != [] ==> lastCommitMpt != null) && Timely(commitments, lastCommitHeight)
      && (lastDelta.Some? ==> D.Shallow(lastDelta.value, 0, 32) && lastCommitMpt != null)
      && (lastDelta.Some? ==> D.BridgesFrom(h, 32, deltaBase, lastCommitMpt.state.dict, lastDelta.value))
      && L.Kept(taken, logIDIndex, fullmpt.state.dict)
    }

    /** The root a served proof commits to. */
    ghost function ServedRoot(): Option<Bytes>
      requires Valid()
      reads this, fullmpt, fullmpt.fp
      reads lastCommitMpt, Foot(lastCommitMpt), lastConfirmedCommitMpt, Foot(lastConfirmedCommitMpt)
    {
      if lastConfirmedCommitMpt == null then None else Some(lastConfirmedCommitMpt.RootHash())
    }

    /**
     The invariant of all runs: at most the last record is pending, roots differ, and the
     dictionary that proofs are served from is that of a mined root.
     */
    ghost predicate Tidy()
      requires Valid()
      reads this, fullmpt, fullmpt.fp
      reads lastCommitMpt, Foot(lastCommitMpt), lastConfirmedCommitMpt, Foot(lastConfirmedCommitMpt)
    {
      Orderly(commitments, ServedRoot())
    }

    constructor (h: HashFn, g: HashFn, every: int)
      ensures Valid() && Tidy() && commitments == [] && fullmpt.state == M.INIT
      ensures taken == [] && !isReady && lastCommitHeight == 0 && lastCommitment == ZERO && lastDelta.None?
      ensures this.h == h && this.g == g && this.commitEveryNBlocks == every && logIDIndex == map[]
      ensures fresh(fullmpt) && fresh(fullmpt.fp) && lastCommitMpt == null && lastConfirmedCommitMpt == null
    {
      hide M.Inv, FullMPT.RootHash, FullMPT.Fresh, FullMPT.RootShape;
      this.h, this.g, commitEveryNBlocks := h, g, every;
      isReady, logIDIndex, commitments, lastDelta, deltaBase, lastCommitHeight := false, map[], [], None, Nil, 0;
      lastCommitment, lastCommitMpt, lastConfirmedCommitMpt := ZERO, null, null;
      taken := [];
      fullmpt := new FullMPT(h, 32);
      new;
      L.KeptNone();
    }

    function NextLogIndex(logID: Bytes): nat
      reads this
    {
      if logID in logIDIndex then logIDIndex[logID] + 1 else 0
    }

    /** `GetNextLogIndex` is how many statements of the log were taken. */
    lemma NextIndexIsCount(logID: Bytes)
      requires Valid()
      ensures NextLogIndex(logID) == L.Count(taken, logID)
    {
      hide M.Inv, FullMPT.RootHash, FullMPT.Fresh, FullMPT.Valid, FullMPT.RootShape, D.Shallow, D.BridgesFrom, L.Kept;
      L.NextIs(taken, logIDIndex, fullmpt.state.dict, logID);
    }

    /**
     A statement is taken if and only if its number is how many statements of its log were taken before,
     and then it is the log's value in the dictionary.
     */
    method RegisterLogStatement(logID: Bytes, index: nat, statement: Bytes) returns (ok: bool)
      requires Valid() && |logID| == 32
      modifies this`logIDIndex, this`taken, fullmpt, fullmpt.fp
      ensures Valid() && fresh(fullmpt.fp - old(fullmpt.fp))
      ensures ok <==> index == L.Count(old(taken), logID)
      ensures ok ==> taken == old(taken) + [L.Entry(logID, index, statement)]
      ensures ok ==> logIDIndex == old(logIDIndex)[logID := index]
      ensures ok ==> fullmpt.state.dict == old(fullmpt.state.dict)[logID := statement]
      ensures !ok ==> taken == old(taken) && logIDIndex == old(logIDIndex) && fullmpt.state == old(fullmpt.state)
      ensures ServedRoot() == old(ServedRoot()) && (old(Tidy()) ==> Tidy())
    {
      hide M.Inv, M.Step, FullMPT.RootHash, FullMPT.Fresh, FullMPT.Valid, FullMPT.RootShape,
           Orderly, MinedRoot, D.Shallow, D.BridgesFrom, L.Kept, Timely, L.Count;
      L.NextIs(taken, logIDIndex, fullmpt.state.dict, logID);
      if index != NextLogIndex(logID) {
        return false;
      }
      L.Taken(taken, logIDIndex, fullmpt.state.dict, L.Entry(logID, index, statement));
      taken := taken + [L.Entry(logID, index, statement)];
      logIDIndex := logIDIndex[logID := index];
      fullmpt.Insert(logID, statement);
      return true;
    }

    /** The part of `Commit` under the lock: hash, keep a copy, take the delta, reset. */
    method Snap() returns (changed: bool, root: Digest)
      requires Valid()
      modifies this`lastCommitment, this`lastCommitMpt, this`lastDelta, this`deltaBase, fullmpt, fullmpt.fp
      ensures Valid() && fullmpt.fp == old(fullmpt.fp)
      ensures root == old(fullmpt.RootHash()) && (changed <==> root != old(lastCommitment))
      ensures fullmpt.state.dict == old(fullmpt.state.dict)
      ensures !changed ==>
                && lastCommitMpt == old(lastCommitMpt) && lastDelta == old(lastDelta)
                && lastCommitment == old(lastCommitment)
      ensures changed ==> lastCommitMpt != null && lastCommitment == root && lastDelta.Some?
      ensures changed ==> deltaBase == old(fullmpt.state.base)
      ensures changed && old(lastCommitMpt) != null ==> deltaBase == old(lastCommitMpt.RootShape())
      ensures !changed ==> deltaBase == old(deltaBase)
      ensures changed ==>
                fresh(lastCommitMpt) && fresh(lastCommitMpt.fp) && lastCommitMpt.state.dict == fullmpt.state.dict
      ensures changed && old(lastCommitMpt) != null ==>
                D.BridgesFrom(h, 32, old(lastCommitMpt.RootShape()), lastCommitMpt.state.dict, lastDelta.value)
      ensures old(Tidy()) ==> Tidy()
    {
      hide M.Inv, M.Step, FullMPT.RootHash, FullMPT.Fresh, FullMPT.Valid, FullMPT.RootShape,
           Orderly, D.BridgesFrom, D.Shallow, L.Kept, Timely;
      var r := RootNow();
      if r == lastCommitment {
        return false, r;
      }
      Keep(r);
      return true, r;
    }

    /** Hash what is stale and answer with the root. */
    method RootNow() returns (r: Digest)
      requires Valid()
      modifies fullmpt, fullmpt.fp
      ensures Valid() && fullmpt.fp == old(fullmpt.fp) && fullmpt.Fresh()
      ensures fullmpt.state.dict == old(fullmpt.state.dict) && fullmpt.state.base == old(fullmpt.state.base)
      ensures r == old(fullmpt.RootHash()) && r == fullmpt.RootHash() && ServedRoot() == old(ServedRoot())
    {
      hide M.Inv, M.Step, FullMPT.RootHash, FullMPT.Fresh, FullMPT.Valid, FullMPT.RootShape, C.RootDigest, C.Under,
           D.BridgesFrom, D.Shallow, L.Kept, Timely;
      var root, w := fullmpt.Commitment();
      r := root;
    }

    /** Keep a copy of the dictionary with root `r`, take the delta and reset. */
    method Keep(r: Digest)
      requires Valid() && r == fullmpt.RootHash() && fullmpt.Fresh()
      modifies this`lastCommitment, this`lastCommitMpt, this`lastDelta, this`deltaBase, fullmpt, fullmpt.fp
      ensures Valid() && fullmpt.fp == old(fullmpt.fp) && fullmpt.state.dict == old(fullmpt.state.dict)
      ensures lastCommitMpt != null && lastCommitment == r && lastDelta.Some? && deltaBase == old(fullmpt.state.base)
      ensures fresh(lastCommitMpt) && fresh(lastCommitMpt.fp) && lastCommitMpt.state.dict == fullmpt.state.dict
      ensures ServedRoot() == old(ServedRoot())
    {
      hide M.Inv, M.Step, FullMPT.RootHash, FullMPT.Fresh, FullMPT.Valid, FullMPT.RootShape,
           D.BridgesFrom, D.Shallow, L.Kept, Timely;
      ghost var base := fullmpt.state.base;
      var copy, delta := Freeze(fullmpt);
      lastCommitment, lastCommitMpt, lastDelta, deltaBase := r, copy, Some(delta), base;
    }

    /**
     `Commit`. `sent` is what the wallet reports: the transaction it broadcast, or nothing on an
     error. A new root is appended as a pending record.
     */
    method Commit(sent: Option<(Digest, Tx)>, walletHeight: int) returns (o: Outcome, root: Digest)
      requires Valid()
      modifies this`lastCommitment, this`lastCommitMpt, this`lastDelta, this`deltaBase, this`commitments,
               this`lastCommitHeight, this`logIDIndex, this`taken, fullmpt, fullmpt.fp
      ensures Valid() && fresh(fullmpt.fp - old(fullmpt.fp))
      ensures lastCommitMpt == old(lastCommitMpt) || (fresh(lastCommitMpt) && fresh(lastCommitMpt.fp))
      ensures root == old(fullmpt.RootHash()) && ServedRoot() == old(ServedRoot())
      ensures o == NoChange <==> root == old(lastCommitment)
      ensures o == Committed <==> root != old(lastCommitment) && sent.Some?
      ensures o != Committed ==>
                && commitments == old(commitments) && lastCommitHeight == old(lastCommitHeight)
                && (old(Tidy()) ==> Tidy())
                && fullmpt.state.dict == old(fullmpt.state.dict) && taken == old(taken)
      ensures o == Committed ==>
                && fullmpt.state.dict == old(fullmpt.state.dict)[ZERO := root]
                && taken == L.More(old(taken), ZERO, root)
      ensures o == NoChange ==>
                && lastCommitMpt == old(lastCommitMpt) && lastDelta == old(lastDelta)
                && lastCommitment == old(lastCommitment)
      ensures o != NoChange ==>
                && lastCommitMpt != null && lastCommitment == root && lastDelta.Some?
                && lastCommitMpt.state.dict == old(fullmpt.state.dict)
      ensures o != NoChange && old(lastCommitMpt) != null ==> deltaBase == old(lastCommitMpt.RootShape())
      ensures o == Committed ==>
                lastCommitHeight == if walletHeight > old(lastCommitHeight) then walletHeight else old(lastCommitHeight)
      ensures o == Committed ==>
                commitments == Save(old(commitments), NewRecord(root, sent.value, walletHeight))
      ensures o == Committed && old(Tidy()) ==> (Tidy() <==> Committable(old(commitments), root, ServedRoot()))
    {
      hide M.Inv, M.Step, FullMPT.RootHash, FullMPT.Fresh, FullMPT.Valid, FullMPT.RootShape,
           Orderly, NonePending, NewRoot, Save, MinedRoot, D.BridgesFrom, D.Shallow, L.Kept;
      var changed;
      changed, root := Snap();
      if !changed {
        return NoChange, root;
      }
      if sent.None? {
        return WalletFailed, root;
      }
      Append(NewRecord(root, sent.value, walletHeight));
      return Committed, root;
    }

    /**
     The start of a full server, after loading: the special log is touched with a random trigger, and if
     there is no commitment yet the maiden statement is registered as its first and committed to. The
     trigger has taken the first place, so the maiden statement is never taken, and the first commitment
     is to what was loaded and the trigger. The source panics if that commit fails.
     */
    method Start(trigger: Bytes, statement: Bytes, sent: Option<(Digest, Tx)>, walletHeight: int)
      returns (took: bool, o: Outcome, root: Digest)
      requires Valid()
      modifies this, fullmpt, fullmpt.fp
      ensures Valid() && !took && (o != WalletFailed ==> isReady)
      ensures old(commitments) == [] ==> RootIs(h, old(fullmpt.state.dict)[ZERO := trigger], root)
      ensures old(commitments) == [] ==> (o == Committed <==> root != old(lastCommitment) && sent.Some?)
      ensures o == Committed ==> old(commitments) == [] && commitments == [NewRecord(root, sent.value, walletHeight)]
      ensures o != Committed ==> commitments == old(commitments)
      ensures var known := L.More(old(taken), ZERO, trigger);
              taken == if o == Committed then L.More(known, ZERO, root) else known
      ensures fullmpt.state.dict == old(fullmpt.state.dict)[ZERO := if o == Committed then root else trigger]
      ensures lastCommitment == (if o == NoChange then old(lastCommitment) else root)
      ensures lastCommitHeight == if o == Committed && walletHeight > old(lastCommitHeight) then walletHeight
                                  else old(lastCommitHeight)
    {
      hide M.Inv, M.Step, FullMPT.Fresh, FullMPT.Valid, FullMPT.RootShape, FullMPT.RootHash, RootIs, Save,
           Orderly, Committable, D.Shallow, D.BridgesFrom, L.Kept, Timely;
      assert this !in fullmpt.fp;
      L.NextIs(taken, logIDIndex, fullmpt.state.dict, ZERO);
      hide Valid, Tidy, ServedRoot;
      var first := RegisterLogStatement(ZERO, NextLogIndex(ZERO), trigger);
      L.CountMore(old(taken), L.Entry(ZERO, L.Count(old(taken), ZERO), trigger), ZERO);
      took, o, root := false, NoChange, ZERO;
      if commitments == [] {
        took, o, root := MaidenCommit(statement, sent, walletHeight);
      }
      if o != WalletFailed {
        BecomeReady();
      }
    }

    method BecomeReady()
      requires Valid()
      modifies this`isReady
      ensures Valid() && isReady
    {
      hide M.Inv, FullMPT.Fresh, FullMPT.Valid, FullMPT.RootShape, FullMPT.RootHash,
           D.Shallow, D.BridgesFrom, L.Kept, Timely;
      isReady := true;
    }

    /** The part for a server without commitments, when the special log already has an entry. */
    method MaidenCommit(statement: Bytes, sent: Option<(Digest, Tx)>, walletHeight: int)
      returns (took: bool, o: Outcome, root: Digest)
      requires Valid() && commitments == [] && L.Count(taken, ZERO) > 0
      modifies this`lastCommitment, this`lastCommitMpt, this`lastDelta, this`deltaBase, this`commitments,
               this`lastCommitHeight, this`logIDIndex, this`taken, fullmpt, fullmpt.fp
      ensures Valid() && !took && RootIs(h, old(fullmpt.state.dict), root)
      ensures o == Committed <==> root != old(lastCommitment) && sent.Some?
      ensures commitments == if o == Committed then [NewRecord(root, sent.value, walletHeight)] else []
      ensures taken == (if o == Committed then L.More(old(taken), ZERO, root) else old(taken))
      ensures fullmpt.state.dict == if o == Committed then old(fullmpt.state.dict)[ZERO := root]
                                    else old(fullmpt.state.dict)
      ensures lastCommitment == (if o == NoChange then old(lastCommitment) else root)
      ensures lastCommitHeight == if o == Committed && walletHeight > old(lastCommitHeight) then walletHeight
                                  else old(lastCommitHeight)
    {
      hide M.Inv, M.Step, FullMPT.Fresh, FullMPT.Valid, FullMPT.RootShape, FullMPT.RootHash, RootIs, Save,
           Orderly, Committable, D.Shallow, D.BridgesFrom, L.Kept, Timely;
      RootHashIs(fullmpt);
      took := RegisterLogStatement(ZERO, 0, statement);
      RootHashIs(fullmpt);
      o, root := Commit(sent, walletHeight);
      if o == Committed {
        SaveFirst(NewRecord(root, sent.value, walletHeight));
      }
    }

    /** `saveCommitment`. */
    method SaveRecord(c: Record)
      requires Valid() && lastCommitMpt != null
      modifies this`commitments, this`lastCommitHeight
      ensures Valid() && commitments == Save(old(commitments), c) && ServedRoot() == old(ServedRoot())
      ensures lastCommitHeight == if c.triggeredAt > old(lastCommitHeight) then c.triggeredAt else old(lastCommitHeight)
    {
      hide M.Inv, FullMPT.RootHash, FullMPT.Fresh, FullMPT.Valid, FullMPT.RootShape,
           Save, Timely, D.Shallow, D.BridgesFrom, L.Kept;
      var height := if c.triggeredAt > lastCommitHeight then c.triggeredAt else lastCommitHeight;
      SaveTimely(commitments, c, lastCommitHeight, height);
      lastCommitHeight := height;
      commitments := SaveCommitment(commitments, c);
    }

    /** Save the pending record, and change the special log so that the next root differs. */
    method Append(c: Record)
      requires Valid() && lastCommitMpt != null && c.includedIn.None?
      modifies this`commitments, this`lastCommitHeight, this`logIDIndex, this`taken, fullmpt, fullmpt.fp
      ensures Valid() && fresh(fullmpt.fp - old(fullmpt.fp)) && commitments == Save(old(commitments), c)
      ensures fullmpt.state.dict == old(fullmpt.state.dict)[ZERO := c.commitment]
      ensures taken == L.More(old(taken), ZERO, c.commitment)
      ensures lastCommitHeight == if c.triggeredAt > old(lastCommitHeight) then c.triggeredAt else old(lastCommitHeight)
      ensures ServedRoot() == old(ServedRoot())
      ensures old(Tidy()) ==> (Tidy() <==> Committable(old(commitments), c.commitment, ServedRoot()))
    {
      hide M.Inv, M.Step, FullMPT.RootHash, FullMPT.Fresh, FullMPT.Valid, FullMPT.RootShape,
           Orderly, NonePending, NewRoot, Save, MinedRoot, Timely, D.Shallow, D.BridgesFrom, L.Kept;
      if Orderly(commitments, ServedRoot()) {
        SaveOrderly(commitments, c, ServedRoot());
      }
      assert this !in fullmpt.fp;
      SaveRecord(c);
      L.NextIs(taken, logIDIndex, fullmpt.state.dict, ZERO);
      var ok := RegisterLogStatement(ZERO, NextLogIndex(ZERO), c.commitment);
    }

    /** If the root just mined is the last one, proofs are served from its dictionary from now on. */
    method Confirm(c: Digest)
      requires Valid() && lastCommitMpt != null
      modifies this`lastConfirmedCommitMpt
      ensures Valid() && ServedRoot() == if c == lastCommitment then Some(c) else old(ServedRoot())
      ensures c != lastCommitment ==> lastConfirmedCommitMpt == old(lastConfirmedCommitMpt)
      ensures c == lastCommitment ==>
                && lastConfirmedCommitMpt != null && lastConfirmedCommitMpt.state.dict == lastCommitMpt.state.dict
                && fresh(lastConfirmedCommitMpt) && fresh(lastConfirmedCommitMpt.fp)
    {
      hide M.Inv, FullMPT.RootHash, FullMPT.Fresh, FullMPT.Valid, FullMPT.RootShape,
           D.Shallow, D.BridgesFrom, L.Kept, Timely;
      if c == lastCommitment {
        lastConfirmedCommitMpt := CopyFresh(lastCommitMpt);
      }
    }

    /** A record found in a block. */
    method MineOne(b: Block, i: nat, ghost before: Log)
      requires Valid() && ValidBlock(g, b) && i < |commitments| && commitments[i].txHash in b.txids
      requires Seen(g, b, before, commitments, i) && DistinctRoots(before)
      requires ServedRoot().Some? ==> MinedRoot(commitments, ServedRoot().value)
      modifies this`commitments, this`lastConfirmedCommitMpt, this`lastCommitHeight
      ensures Valid() && Seen(g, b, before, commitments, i + 1) && lastCommitHeight == old(lastCommitHeight)
      ensures ServedRoot().Some? ==> MinedRoot(commitments, ServedRoot().value)
      ensures ServedRoot() == if old(commitments[i].commitment) == lastCommitment then Some(lastCommitment)
                              else old(ServedRoot())
    {
      hide M.Inv, FullMPT.RootHash, FullMPT.Fresh, FullMPT.Valid, FullMPT.RootShape, D.Shallow, D.BridgesFrom, L.Kept,
           Seen, MinedRoot, DistinctRoots, Save, ValidBlock, AfterBlock, ServedRoot, OnlyLastPending;
      var c := commitments[i];
      var d := MineRecord(g, b, c);
      SeenOne(g, b, before, commitments, i, d);
      if ServedRoot().Some? {
        SeenMore(g, b, before, commitments, i, d, ServedRoot().value);
      }
      Confirm(c.commitment);
      PutBack(i, d);
    }

    /** Save a record that is already listed. */
    method PutBack(i: nat, d: Record)
      requires Valid() && i < |commitments| && d.triggeredAt <= lastCommitHeight
      modifies this`commitments, this`lastCommitHeight
      ensures Valid() && commitments == Save(old(commitments)[i := d], d) && ServedRoot() == old(ServedRoot())
      ensures lastCommitHeight == old(lastCommitHeight)
    {
      hide M.Inv, FullMPT.RootHash, FullMPT.Fresh, FullMPT.Valid, FullMPT.RootShape,
           Save, D.Shallow, D.BridgesFrom, L.Kept;
      commitments := commitments[i := d];
      SaveRecord(d);
    }

    /** `processMerkleProofs`: every record found in the block is mined there, the others stay. */
    method ProcessMerkleProofs(b: Block)
      requires Valid() && Tidy() && ValidBlock(g, b)
      modifies this`commitments, this`lastConfirmedCommitMpt, this`lastCommitHeight
      ensures Valid() && Tidy() && Seen(g, b, old(commitments), commitments, |commitments|)
      ensures lastCommitHeight == old(lastCommitHeight)
      ensures ServedRoot() == if FoundIn(old(commitments), b, lastCommitment, old(|commitments|))
                              then Some(lastCommitment) else old(ServedRoot())
    {
      hide M.Inv, FullMPT.RootHash, FullMPT.Fresh, FullMPT.Valid, FullMPT.RootShape,
           MinedRoot, DistinctRoots, OnlyLastPending, AfterBlock, ValidBlock, D.Shallow, D.BridgesFrom, L.Kept, Timely;
      ghost var before := commitments;
      var i := 0;
      while i < |commitments|
        invariant i <= |commitments| && Valid() && Seen(g, b, before, commitments, i)
        invariant lastCommitHeight == old(lastCommitHeight)
        invariant ServedRoot().Some? ==> MinedRoot(commitments, ServedRoot().value)
        invariant i <= |before| && commitments[i..] == before[i..]
        invariant ServedRoot() == if FoundIn(before, b, lastCommitment, i) then Some(lastCommitment)
                                  else old(ServedRoot())
      {
        assert commitments[i] == commitments[i..][0] == before[i];
        if commitments[i].txHash in b.txids {
          MineOne(b, i, before);
        } else {
          SeenSkip(g, b, before, commitments, i);
        }
        i := i + 1;
      }
      SeenKeeps(g, b, before, commitments, i, []);
    }

    /**
     One turn of `blockWatcher`. `mid` is the list after the block was looked at; a commit follows
     when it is due, nothing is pending and the server is ready.
     */
    method BlockArrives(b: Block, walletHeight: int, sent: Option<(Digest, Tx)>)
      returns (o: Outcome, root: Digest, ghost mid: Log)
      requires Valid() && Tidy() && ValidBlock(g, b)
      modifies this, fullmpt, fullmpt.fp
      ensures Valid() && fullmpt == old(fullmpt) && isReady == old(isReady)
      ensures Seen(g, b, old(commitments), mid, |mid|)
      ensures o != Committed ==> commitments == mid
      ensures o == Committed <==>
              && walletHeight - old(lastCommitHeight) >= commitEveryNBlocks && NonePending(mid) && isReady
              && old(fullmpt.RootHash()) != old(lastCommitment) && sent.Some?
      ensures o == Committed ==> root == old(fullmpt.RootHash())
      ensures o == Committed ==> commitments == Save(mid, NewRecord(root, sent.value, walletHeight))
      ensures ServedRoot() == if FoundIn(old(commitments), b, old(lastCommitment), old(|commitments|))
                              then Some(old(lastCommitment)) else old(ServedRoot())
      ensures taken == (if o == Committed then L.More(old(taken), ZERO, root) else old(taken))
      ensures fullmpt.state.dict == if o == Committed then old(fullmpt.state.dict)[ZERO := root]
                                    else old(fullmpt.state.dict)
      ensures lastCommitment == (if o == NoChange then old(lastCommitment) else root)
      ensures lastCommitHeight == if o == Committed && walletHeight > old(lastCommitHeight) then walletHeight
                                  else old(lastCommitHeight)
      ensures Tidy() <==> (o == Committed ==> Committable(mid, root, ServedRoot()))
      ensures NewRoot(old(commitments), old(fullmpt.RootHash())) ==> Tidy()
    {
      hide M.Inv, FullMPT.RootHash, FullMPT.Valid, FullMPT.RootShape,
           NonePending, NewRoot, Save, Seen, ValidBlock, FoundIn;
      assert this !in fullmpt.fp;
      ghost var next := fullmpt.RootHash();
      hide Valid, Tidy, ServedRoot;
      ProcessMerkleProofs(b);
      mid := commitments;
      if NewRoot(old(commitments), next) {
        SeenRoots(g, b, old(commitments), mid, |mid|, next);
      }
      o, root := CommitIfDue(walletHeight, sent);
    }

    /** Commit when enough blocks have passed, nothing is pending and the server is ready. */
    method CommitIfDue(walletHeight: int, sent: Option<(Digest, Tx)>) returns (o: Outcome, root: Digest)
      requires Valid() && Tidy()
      modifies this`lastCommitment, this`lastCommitMpt, this`lastDelta, this`deltaBase, this`commitments,
               this`lastCommitHeight, this`logIDIndex, this`taken, fullmpt, fullmpt.fp
      ensures Valid() && ServedRoot() == old(ServedRoot())
      ensures o != Committed ==> commitments == old(commitments)
      ensures o == Committed <==>
              && walletHeight - old(lastCommitHeight) >= commitEveryNBlocks && old(NonePending(commitments)) && isReady
              && old(fullmpt.RootHash()) != old(lastCommitment) && sent.Some?
      ensures o == Committed ==> root == old(fullmpt.RootHash())
      ensures o == Committed ==> commitments == Save(old(commitments), NewRecord(root, sent.value, walletHeight))
      ensures taken == (if o == Committed then L.More(old(taken), ZERO, root) else old(taken))
      ensures fullmpt.state.dict == if o == Committed then old(fullmpt.state.dict)[ZERO := root]
                                    else old(fullmpt.state.dict)
      ensures lastCommitment == (if o == NoChange then old(lastCommitment) else root)
      ensures lastCommitHeight == if o == Committed && walletHeight > old(lastCommitHeight) then walletHeight
                                  else old(lastCommitHeight)
      ensures Tidy() <==> (o == Committed ==> Committable(old(commitments), root, ServedRoot()))
      ensures NewRoot(old(commitments), old(fullmpt.RootHash())) ==> Tidy()
    {
      hide M.Inv, FullMPT.RootHash, FullMPT.Fresh, FullMPT.Valid, FullMPT.RootShape,
           Orderly, NonePending, NewRoot, Save, MinedRoot, Timely, D.Shallow, D.BridgesFrom, L.Kept;
      o, root := NoChange, ZERO;
      ghost var next := fullmpt.RootHash();
      if NonePending(commitments) && NewRoot(commitments, next) {
        NewRootCommittable(commitments, next, ServedRoot());
      }
      var pending := HasPending(commitments);
      if walletHeight - lastCommitHeight >= commitEveryNBlocks && !pending && isReady {
        o, root := Commit(sent, walletHeight);
      }
    }

    /**
     `GetProofForKeys` on a full server: refused before the first confirmation and for no keys, else
     a proof that commits to a mined root and answers each key as that root's dictionary does.
     */
    method GetProofForKeys(keys: seq<Bytes>) returns (p: Option<Trie>)
      requires Valid() && Tidy() && P.Sized(keys, 32)
      modifies lastConfirmedCommitMpt, if lastConfirmedCommitMpt == null then {} else lastConfirmedCommitMpt.fp
      ensures Valid() && Tidy() && ServedRoot() == old(ServedRoot())
      ensures p.Some? <==> lastConfirmedCommitMpt != null && keys != []
      ensures p.Some? ==> MinedRoot(commitments, HashOf(h, p.value))
      ensures p.Some? ==> IsProof(h, lastConfirmedCommitMpt.state.dict, keys, p.value)
      ensures p.Some? ==> forall k :: k in keys ==>
                Reaches(p.value, k, 0) && Lookup(p.value, k, 0) == AnswerOf(lastConfirmedCommitMpt.state.dict, k)
    {
      hide M.Inv, FullMPT.Fresh, FullMPT.RootShape, MinedRoot, P.CopyPaths, P.Covers, P.Sized, C.RootOf,
           D.Shallow, D.BridgesFrom, L.Kept, Timely;
      if lastConfirmedCommitMpt == null {
        return None;
      }
      ghost var r := lastConfirmedCommitMpt.RootHash();
      p := lastConfirmedCommitMpt.NewPartial(keys);
      if p.Some? {
        ProofAnswers(h, lastConfirmedCommitMpt.state, keys);
      }
    }

    /**
     `GetDeltaProofForKeys`: the last delta restricted to the keys. It takes the proof under the root
     kept before to the proof under the last root. Before the first commit, and for no keys, where what
     is left of the root is a stub, the source panics.
     */
    method GetDeltaProofForKeys(keys: seq<Bytes>) returns (r: Option<Trie>)
      requires Valid() && P.Sized(keys, 32)
      ensures r.Some? <==> lastDelta.Some? && keys != []
      ensures r.Some? ==> D.NoNil(lastDelta.value) && r.value == D.Updates(h, lastDelta.value, keys, 0)
      ensures r.Some? ==>
                lastCommitMpt != null && D.LeadsTo(h, 32, deltaBase, lastCommitMpt.state.dict, keys, r.value)
    {
      hide M.Inv, FullMPT.Fresh, FullMPT.Valid, FullMPT.RootHash, FullMPT.RootShape, D.Shallow, D.InRange, D.Updates,
           D.BridgesFrom, D.LeadsTo, C.Under;
      if lastDelta.None? || keys == [] {
        return None;
      }
      D.ShallowInRange(lastDelta.value, keys, 0, 32);
      UnderOf(lastCommitMpt);
      D.BridgeLeads(h, 32, deltaBase, lastCommitMpt.state.dict, lastDelta.value, keys);
      var u := D.GetUpdates(h, keys, lastDelta.value, 0);
      r := Some(u);
    }
  }

  /** The proof for the keys taken from the trie of the map, which shows nothing off their paths. */
  ghost predicate IsProof(h: HashFn, m: C.Dict, keys: seq<Bytes>, p: Trie)
  {
    C.Under(m, [], 32) && P.Covers(C.RootOf(m, 32), keys, 0) && p == P.CopyPaths(h, C.RootOf(m, 32), keys, 0)
  }

  function AnswerOf(m: C.Dict, k: Bytes): Answer
  {
    if k in m then Present(m[k]) else Absent
  }

  lemma ProofAnswers(h: HashFn, s: M.State, keys: seq<Bytes>)
    requires M.Inv(h, 32, s) && P.Sized(keys, 32)
    ensures C.Under(s.dict, [], 32) && P.Covers(C.RootOf(s.dict, 32), keys, 0)
    ensures HashOf(h, P.CopyPaths(h, C.RootOf(s.dict, 32), keys, 0)) == HashOf(h, C.RootOf(s.dict, 32))
    ensures forall k :: k in keys ==>
              var p := P.CopyPaths(h, C.RootOf(s.dict, 32), keys, 0);
              Reaches(p, k, 0) && Lookup(p, k, 0) == AnswerOf(s.dict, k)
  {
    P.RootOfCovers(s.dict, keys, 32);
    P.CopyHash(h, C.RootOf(s.dict, 32), keys, 0);
    forall k | k in keys
      ensures var p := P.CopyPaths(h, C.RootOf(s.dict, 32), keys, 0);
              Reaches(p, k, 0) && Lookup(p, k, 0) == AnswerOf(s.dict, k)
    {
      P.ProofOfMap(h, s.dict, keys, k, 32);
    }
  }

  function NewRecord(root: Digest, sent: (Digest, Tx), height: int): Record
  {
    Record(root, sent.0, height, None, Merkle.MerkleProof(0, []), sent.1)
  }
}
