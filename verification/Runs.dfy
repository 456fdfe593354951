/**
 Server, wallet and block chain over whole runs, each seeing the blocks in its own time. What the
 server keeps is at all times a list in order; it is one that clients accept if and only if it began
 with the maiden root and every commitment that has a successor left change.
 */
module Runs {
  import opened Bits
  import opened Trie
  import opened Records
  import opened Ledger
  import opened Client
  import opened EndToEnd
  import K = Copies
  import S = Server
  import W = Wallet

  /** A block as the server sees it, and its transactions as the wallet does. */
  datatype NetBlock = NetBlock(block: Block, txs: seq<W.Mined>)

  /** What does not change: the blocks' hash function, the maiden root, which scripts pay the wallet, and its own. */
  datatype Setup = Setup(g: HashFn, maiden: Digest, mine: Bytes -> bool, myScript: Bytes)

  /**
   The list of the server, the outputs and the last commitment of the wallet, the blocks, how many of
   them the server and the wallet have processed, and the headers.
   */
  datatype Net = Net(cs: Log, us: seq<W.Utxo>, last: Digest, chain: seq<NetBlock>, seen: nat, done: nat,
                     headers: map<Digest, Digest>)

  // ----- the block chain -----

  ghost predicate SpendsAt(chain: seq<NetBlock>, i: nat, j: nat, o: OutPoint)
  {
    i < |chain| && j < |chain[i].txs| && o in chain[i].txs[j].tx.inputs
  }

  ghost predicate Spent(chain: seq<NetBlock>, o: OutPoint)
  {
    exists i: nat, j: nat :: SpendsAt(chain, i, j, o)
  }

  ghost predicate InBlock(chain: seq<NetBlock>, i: nat, id: Digest)
  {
    i < |chain| && id in chain[i].block.txids
  }

  ghost predicate InChain(chain: seq<NetBlock>, id: Digest)
  {
    exists i: nat :: InBlock(chain, i, id)
  }

  /** The two views of a block agree. */
  ghost predicate TwoViews(b: NetBlock)
  {
    |b.txs| == |b.block.txids| && forall j :: 0 <= j < |b.txs| ==> b.txs[j].id == b.block.txids[j]
  }

  /** A hash of a listed transaction names that transaction. */
  ghost predicate Named(cs: Log, b: NetBlock)
  {
    forall i, j :: 0 <= i < |cs| && 0 <= j < |b.txs| && b.txs[j].id == cs[i].txHash ==> b.txs[j].tx == cs[i].tx
  }

  /** No transaction of the block spends `o`. */
  ghost predicate Leaves(b: NetBlock, o: OutPoint)
  {
    forall j :: 0 <= j < |b.txs| ==> !W.Spends(b.txs[j], o)
  }

  ghost function LastRecord(cs: Log): Record
    requires cs != []
  {
    cs[|cs| - 1]
  }

  /** The change output of a commitment. */
  function ChangeOf(id: Digest): OutPoint { OutPoint(id, 1) }

  predicate HasChange(c: Record) { |c.tx.outputs| > 1 }

  // ----- the steps -----

  /**
   The network finds a block: it spends nothing that an earlier block spent, and only the wallet can spend
   the change of the last commitment, which it has not done yet.
   */
  ghost predicate MineStep(s: Net, b: NetBlock, s': Net)
  {
    && TwoViews(b) && Named(s.cs, b)
    && (b.block.hash in s.headers ==> s.headers[b.block.hash] == b.block.merkleRoot)
    && (forall o :: Spent(s.chain, o) ==> Leaves(b, o))
    && (s.cs != [] ==> Leaves(b, ChangeOf(LastRecord(s.cs).txHash)))
    && s' == s.(chain := s.chain + [b], headers := s.headers[b.block.hash := b.block.merkleRoot])
  }

  /** The server looks at its next block. */
  ghost predicate ServerStep(e: Setup, s: Net, s': Net)
  {
    && s.seen < |s.chain| && Seen(e.g, s.chain[s.seen].block, s.cs, s'.cs, |s'.cs|)
    && s' == s.(cs := s'.cs, seen := s.seen + 1)
  }

  /** The wallet processes its next block. */
  ghost predicate WalletStep(e: Setup, s: Net, s': Net)
  {
    && s.done < |s.chain| && W.Unique(s'.us)
    && (forall o :: W.Find(s'.us, o) == W.After(e.mine, s.chain[s.done].txs, o, W.Find(s.us, o)))
    && s' == s.(us := s'.us, done := s.done + 1)
  }

  /** The hash of a new transaction: nothing has it and nothing spends its outputs. */
  ghost predicate NewId(s: Net, id: Digest)
  {
    !InChain(s.chain, id) && !Spent(s.chain, ChangeOf(id)) && forall i :: 0 <= i < |s.us| ==> s.us[i].txHash != id
  }

  /**
   The server commits to a new root while it knows of nothing pending, and the wallet, wherever it is in
   the chain, covers the fee. The network takes the transaction only if its inputs are unspent.
   */
  ghost predicate CommitStep(e: Setup, s: Net, root: Digest, id: Digest, tx: Tx, height: int, s': Net)
  {
    && NonePending(s.cs) && NewRoot(s.cs, root)
    && W.Total(s.us) >= W.FEE && W.IsCommit(s.us, s.last, root, e.myScript, tx)
    && (forall o :: o in tx.inputs ==> !Spent(s.chain, o)) && NewId(s, id)
    && s' == s.(cs := Save(s.cs, S.NewRecord(root, (id, tx), height)), last := id)
  }

  ghost predicate Next(e: Setup, s: Net, s': Net)
  {
    || (exists b :: MineStep(s, b, s'))
    || ServerStep(e, s, s')
    || WalletStep(e, s, s')
    || (exists root, id, tx, height :: CommitStep(e, s, root, id, tx, height, s'))
  }

  ghost predicate Initial(s: Net)
  {
    s.cs == [] && s.chain == [] && s.seen == s.done == 0 && W.Unique(s.us)
  }

  ghost predicate IsRun(e: Setup, ss: seq<Net>)
  {
    && |ss| > 0 && e.mine(e.myScript) && Initial(ss[0])
    && forall i :: 0 < i < |ss| ==> Next(e, ss[i - 1], ss[i])
  }

  // ----- the invariant -----

  /** Blocks are whole and known by their headers, and nothing is spent in two of them. */
  ghost predicate ChainGood(s: Net)
  {
    && s.seen <= |s.chain| && s.done <= |s.chain|
    && (forall i :: 0 <= i < |s.chain| ==> BlockGood(s.cs, s.headers, s.chain[i]))
    && (forall i: nat, j: nat, k: nat, l: nat, o ::
          SpendsAt(s.chain, i, j, o) && SpendsAt(s.chain, k, l, o) ==> i == k)
  }

  ghost predicate BlockGood(cs: Log, headers: map<Digest, Digest>, b: NetBlock)
  {
    && TwoViews(b) && Named(cs, b)
    && b.block.hash in headers && headers[b.block.hash] == b.block.merkleRoot
  }

  /** The list is in order, its mined records are in blocks, and clients can check them. */
  ghost predicate ListGood(e: Setup, s: Net)
  {
    && OnlyLastPending(s.cs) && DistinctRoots(s.cs) && Proven(e.g, s.headers, s.cs)
    && (s.cs != [] && LastRecord(s.cs).includedIn.Some? ==> InChain(s.chain, LastRecord(s.cs).txHash))
  }

  /** A record spends the change of the one before first if and only if that one left change. */
  ghost predicate LinksGood(cs: Log)
  {
    forall i :: 0 < i < |cs| ==> (Follows(cs[i - 1], cs[i]) <==> HasChange(cs[i - 1]))
  }

  /**
   The last record and the wallet. Once the wallet has processed the block of the last commitment it
   holds its change, if there is any. Until then it does not, and it still holds what that commitment
   spent first, unless another transaction spent that.
   */
  ghost predicate LastGood(e: Setup, s: Net)
  {
    && W.Unique(s.us) && s.done <= |s.chain|
    && (s.cs != [] ==>
          var c := LastRecord(s.cs);
          && c.txHash == s.last && |c.tx.inputs| > 0 && (HasChange(c) ==> e.mine(c.tx.outputs[1].script))
          && !Spent(s.chain, ChangeOf(s.last))
          && WalletGood(s.us, c, s.chain, s.done))
  }

  ghost predicate WalletGood(us: seq<W.Utxo>, c: Record, chain: seq<NetBlock>, done: nat)
    requires |c.tx.inputs| > 0 && done <= |chain|
  {
    var o, f := ChangeOf(c.txHash), c.tx.inputs[0];
    if InChain(chain[..done], c.txHash) then W.Find(us, o).Some? <==> HasChange(c)
    else W.Find(us, o).None? && (W.Find(us, f).Some? || Spent(chain[..done], f))
  }

  ghost predicate Good(e: Setup, s: Net)
  {
    ChainGood(s) && ListGood(e, s) && LinksGood(s.cs) && LastGood(e, s)
  }

  // ----- facts about chains -----

  lemma SpentMore(chain: seq<NetBlock>, b: NetBlock, o: OutPoint)
    ensures Spent(chain + [b], o) <==> Spent(chain, o) || !Leaves(b, o)
  {
    var more := chain + [b];
    if Spent(chain, o) {
      var i: nat, j: nat :| SpendsAt(chain, i, j, o);
      assert SpendsAt(more, i, j, o);
    }
    if !Leaves(b, o) {
      var j :| 0 <= j < |b.txs| && W.Spends(b.txs[j], o);
      assert SpendsAt(more, |chain|, j, o);
    }
    if Spent(more, o) {
      var i: nat, j: nat :| SpendsAt(more, i, j, o);
      if i < |chain| {
        assert SpendsAt(chain, i, j, o);
      } else {
        assert W.Spends(b.txs[j], o);
      }
    }
  }

  lemma InChainMore(chain: seq<NetBlock>, b: NetBlock, id: Digest)
    ensures InChain(chain + [b], id) <==> InChain(chain, id) || id in b.block.txids
  {
    var more := chain + [b];
    if InChain(chain, id) {
      var i: nat :| InBlock(chain, i, id);
      assert InBlock(more, i, id);
    }
    if id in b.block.txids {
      assert InBlock(more, |chain|, id);
    }
    if InChain(more, id) {
      var i: nat :| InBlock(more, i, id);
      assert i < |chain| ==> InBlock(chain, i, id);
    }
  }

  lemma SpentNone(o: OutPoint, id: Digest)
    ensures !Spent([], o) && !InChain([], id)
  {
  }

  /** One more block processed. */
  lemma NextPart(chain: seq<NetBlock>, n: nat)
    requires n < |chain|
    ensures chain[..n + 1] == chain[..n] + [chain[n]]
  {
  }

  /** A mined commitment that the wallet has not processed is spending in a later block. */
  lemma MinedSpends(cs: Log, headers: map<Digest, Digest>, chain: seq<NetBlock>, done: nat, c: Record)
    requires c in cs && |c.tx.inputs| > 0
    requires done <= |chain| && InChain(chain, c.txHash) && !InChain(chain[..done], c.txHash)
    requires forall i :: 0 <= i < |chain| ==> BlockGood(cs, headers, chain[i])
    ensures exists i: nat, j: nat :: i >= done && SpendsAt(chain, i, j, c.tx.inputs[0])
  {
    var i: nat :| InBlock(chain, i, c.txHash);
    assert i < done ==> InBlock(chain[..done], i, c.txHash);
    var j :| 0 <= j < |chain[i].block.txids| && chain[i].block.txids[j] == c.txHash;
    var k :| 0 <= k < |cs| && cs[k] == c;
    assert BlockGood(cs, headers, chain[i]) && chain[i].txs[j].id == cs[k].txHash;
    assert SpendsAt(chain, i, j, c.tx.inputs[0]);
  }

  /** What is spent in a later block is not spent in the first ones. */
  lemma NotSpentBefore(s: Net, n: nat, i: nat, j: nat, o: OutPoint)
    requires ChainGood(s) && n <= i && n <= |s.chain| && SpendsAt(s.chain, i, j, o)
    ensures !Spent(s.chain[..n], o) && Spent(s.chain, o)
  {
    hide BlockGood;
    assert forall k: nat, l: nat :: SpendsAt(s.chain[..n], k, l, o) ==> k < n && SpendsAt(s.chain, k, l, o);
  }

  lemma PartInChain(chain: seq<NetBlock>, n: nat, id: Digest)
    requires n <= |chain|
    ensures InChain(chain[..n], id) ==> InChain(chain, id)
  {
    assert forall i: nat :: InBlock(chain[..n], i, id) ==> InBlock(chain, i, id);
  }

  lemma InNoBlock(chain: seq<NetBlock>, i: nat, id: Digest)
    requires !InChain(chain, id) && i < |chain|
    ensures id !in chain[i].block.txids
  {
    assert !InBlock(chain, i, id);
  }

  // ----- a new block -----

  lemma MineKeepsChain(s: Net, b: NetBlock, s': Net)
    requires ChainGood(s) && MineStep(s, b, s')
    ensures ChainGood(s')
  {
    forall i | 0 <= i < |s'.chain|
      ensures BlockGood(s'.cs, s'.headers, s'.chain[i])
    {
      assert i < |s.chain| ==> BlockGood(s.cs, s.headers, s.chain[i]);
    }
    forall i: nat, j: nat, k: nat, l: nat, o | SpendsAt(s'.chain, i, j, o) && SpendsAt(s'.chain, k, l, o)
      ensures i == k
    {
      MineOnce(s, b, s', i, j, k, l, o);
    }
  }

  lemma MineOnce(s: Net, b: NetBlock, s': Net, i: nat, j: nat, k: nat, l: nat, o: OutPoint)
    requires ChainGood(s) && MineStep(s, b, s') && SpendsAt(s'.chain, i, j, o) && SpendsAt(s'.chain, k, l, o)
    ensures i == k
  {
    hide Named, TwoViews, BlockGood;
    var n := |s.chain|;
    assert i < n ==> SpendsAt(s.chain, i, j, o);
    assert k < n ==> SpendsAt(s.chain, k, l, o);
    assert i == n ==> W.Spends(b.txs[j], o);
    assert k == n ==> W.Spends(b.txs[l], o);
    if Spent(s.chain, o) {
      assert Leaves(b, o);
    }
  }

  lemma MineKeeps(e: Setup, s: Net, b: NetBlock, s': Net)
    requires Good(e, s) && MineStep(s, b, s')
    ensures Good(e, s')
  {
    hide W.Find, W.Unique, BlockGood, Named, Included;
    MineKeepsChain(s, b, s');
    ProvenMore(e.g, s.headers, s.cs, b.block.hash, b.block.merkleRoot);
    if s.cs != [] {
      SpentMore(s.chain, b, ChangeOf(s.last));
      InChainMore(s.chain, b, s.last);
      assert s'.chain[..s.done] == s.chain[..s.done];
    }
  }

  /** Known headers stay, so what was acceptable stays acceptable. */
  lemma ProvenMore(h: HashFn, headers: map<Digest, Digest>, cs: Log, b: Digest, root: Digest)
    requires Proven(h, headers, cs) && (b in headers ==> headers[b] == root)
    ensures Proven(h, headers[b := root], cs)
  {
    forall i | 0 <= i < |cs| && cs[i].includedIn.Some?
      ensures Included(h, headers[b := root], cs[i])
    {
      assert Included(h, headers, cs[i]);
    }
  }

  // ----- the server sees a block -----

  /** A block changes neither transaction nor hash of a record, and only what is in it becomes mined. */
  ghost predicate SameButMined(b: Block, c: Record, d: Record)
  {
    && d.commitment == c.commitment && d.txHash == c.txHash && d.tx == c.tx
    && (c.includedIn.Some? ==> d.includedIn.Some?)
    && (d.includedIn.Some? ==> c.includedIn.Some? || c.txHash in b.txids)
  }

  lemma SeenSame(h: HashFn, b: Block, before: Log, cs: Log)
    requires Seen(h, b, before, cs, |cs|)
    ensures |cs| == |before| && forall i :: 0 <= i < |cs| ==> SameButMined(b, before[i], cs[i])
  {
    forall i | 0 <= i < |cs|
      ensures SameButMined(b, before[i], cs[i])
    {
      assert AfterBlock(h, b, before[i], cs[i]);
    }
  }

  lemma ServerKeepsLinks(b: Block, before: Log, cs: Log)
    requires LinksGood(before) && |cs| == |before| && forall i :: 0 <= i < |cs| ==> SameButMined(b, before[i], cs[i])
    ensures LinksGood(cs)
  {
    forall i | 0 < i < |cs|
      ensures Follows(cs[i - 1], cs[i]) <==> HasChange(cs[i - 1])
    {
      assert SameButMined(b, before[i - 1], cs[i - 1]) && SameButMined(b, before[i], cs[i]);
      assert Follows(before[i - 1], before[i]) <==> HasChange(before[i - 1]);
    }
  }

  lemma ServerKeepsChain(b: Block, s: Net, s': Net)
    requires ChainGood(s) && |s'.cs| == |s.cs| && forall i :: 0 <= i < |s.cs| ==> SameButMined(b, s.cs[i], s'.cs[i])
    requires s' == s.(cs := s'.cs, seen := s.seen + 1) && s.seen < |s.chain|
    ensures ChainGood(s')
  {
    hide TwoViews;
    forall i | 0 <= i < |s'.chain|
      ensures BlockGood(s'.cs, s'.headers, s'.chain[i])
    {
      assert BlockGood(s.cs, s.headers, s.chain[i]);
      forall k, j | 0 <= k < |s'.cs| && 0 <= j < |s.chain[i].txs| && s.chain[i].txs[j].id == s'.cs[k].txHash
        ensures s.chain[i].txs[j].tx == s'.cs[k].tx
      {
        assert SameButMined(b, s.cs[k], s'.cs[k]);
      }
    }
  }

  lemma ServerKeeps(e: Setup, s: Net, s': Net)
    requires Good(e, s) && ServerStep(e, s, s')
    ensures Good(e, s')
  {
    hide W.Find, W.Unique, Included, Seen, OnlyLastPending, DistinctRoots, Proven, TwoViews, Named, Spent;
    var b := s.chain[s.seen].block;
    SeenSame(e.g, b, s.cs, s'.cs);
    SeenKeeps(e.g, b, s.cs, s'.cs, |s'.cs|, []);
    ServerKeepsLinks(b, s.cs, s'.cs);
    ServerKeepsChain(b, s, s');
    assert BlockGood(s.cs, s.headers, s.chain[s.seen]);
    BlockKeepsProven(e.g, s.headers, b, s.cs, s'.cs);
    if s.cs != [] {
      var n := |s.cs| - 1;
      assert SameButMined(b, s.cs[n], s'.cs[n]);
      if s.cs[n].txHash in b.txids {
        assert InBlock(s.chain, s.seen, s.cs[n].txHash);
      }
    }
  }

  // ----- the wallet processes a block -----

  /** An outpoint that no transaction spends is there afterwards if and only if it was, or one creates it. */
  lemma {:induction false} Unspent(mine: Bytes -> bool, ts: seq<W.Mined>, o: OutPoint, was: Option<W.Utxo>)
    requires forall i :: 0 <= i < |ts| ==> !W.Spends(ts[i], o)
    ensures W.After(mine, ts, o, was).Some? <==> was.Some? || exists i :: 0 <= i < |ts| && W.Creates(mine, ts[i], o)
    decreases |ts|
  {
    if ts != [] {
      var n := |ts| - 1;
      assert !W.Spends(ts[n], o) && forall i :: 0 <= i < n ==> ts[..n][i] == ts[i];
      Unspent(mine, ts[..n], o, was);
      if i :| 0 <= i < n && W.Creates(mine, ts[..n][i], o) {
        assert W.Creates(mine, ts[i], o);
      }
      if i :| 0 <= i < |ts| && W.Creates(mine, ts[i], o) {
        assert i < n ==> W.Creates(mine, ts[..n][i], o);
      }
    }
  }

  /** A block creates the change of a commitment if and only if it holds the commitment and that has change. */
  lemma CreatesChange(mine: Bytes -> bool, cs: Log, c: Record, b: NetBlock)
    requires c in cs && TwoViews(b) && Named(cs, b) && (HasChange(c) ==> mine(c.tx.outputs[1].script))
    ensures (exists j :: 0 <= j < |b.txs| && W.Creates(mine, b.txs[j], ChangeOf(c.txHash))) <==>
            c.txHash in b.block.txids && HasChange(c)
  {
    var k :| 0 <= k < |cs| && cs[k] == c;
    if j :| 0 <= j < |b.txs| && W.Creates(mine, b.txs[j], ChangeOf(c.txHash)) {
      assert b.txs[j].id == cs[k].txHash && b.block.txids[j] == c.txHash;
    }
    if c.txHash in b.block.txids && HasChange(c) {
      var j :| 0 <= j < |b.block.txids| && b.block.txids[j] == c.txHash;
      assert b.txs[j].id == cs[k].txHash;
      assert W.Creates(mine, b.txs[j], ChangeOf(c.txHash));
    }
  }

  /** The change after a block, from the change before it. */
  lemma ChangeAfter(e: Setup, s: Net, s': Net)
    requires ChainGood(s) && LastGood(e, s) && WalletStep(e, s, s') && s.cs != []
    ensures W.Find(s'.us, ChangeOf(s.last)).Some? <==>
            || W.Find(s.us, ChangeOf(s.last)).Some?
            || (s.last in s.chain[s.done].block.txids && HasChange(LastRecord(s.cs)))
  {
    hide W.Find, W.Unique, W.After, W.Creates, WalletGood;
    var b, o := s.chain[s.done], ChangeOf(s.last);
    assert BlockGood(s.cs, s.headers, b);
    forall j | 0 <= j < |b.txs|
      ensures !W.Spends(b.txs[j], o)
    {
      assert !SpendsAt(s.chain, s.done, j, o);
    }
    CreatesChange(e.mine, s.cs, LastRecord(s.cs), b);
    Unspent(e.mine, b.txs, o, W.Find(s.us, o));
  }

  /** What the last commitment spends first, after a block. */
  lemma FirstAfter(e: Setup, s: Net, s': Net, f: OutPoint)
    requires WalletStep(e, s, s') && (W.Find(s.us, f).Some? || Spent(s.chain[..s.done], f))
    ensures W.Find(s'.us, f).Some? || Spent(s.chain[..s.done + 1], f)
  {
    hide W.Find, W.Unique, W.After, W.Creates, Spent;
    var b := s.chain[s.done];
    NextPart(s.chain, s.done);
    SpentMore(s.chain[..s.done], b, f);
    if Leaves(b, f) && W.Find(s.us, f).Some? {
      Unspent(e.mine, b.txs, f, W.Find(s.us, f));
    }
  }

  lemma WalletKeeps(e: Setup, s: Net, s': Net)
    requires Good(e, s) && WalletStep(e, s, s')
    ensures Good(e, s')
  {
    hide W.Find, W.Unique, W.After, Spent, InChain, Proven, OnlyLastPending, DistinctRoots, Follows, BlockGood;
    if s.cs != [] {
      NextPart(s.chain, s.done);
      InChainMore(s.chain[..s.done], s.chain[s.done], s.last);
      ChangeAfter(e, s, s');
      if !InChain(s.chain[..s.done], s.last) {
        FirstAfter(e, s, s', LastRecord(s.cs).tx.inputs[0]);
      }
    }
  }

  // ----- a commit -----

  /**
   Whenever a commit goes through, the wallet has processed the block of the commitment before: until then
   it would spend again what that one spent first, and the network refuses that.
   */
  lemma WalletHasCaughtUp(e: Setup, s: Net, root: Digest, id: Digest, tx: Tx, height: int, s': Net)
    requires Good(e, s) && CommitStep(e, s, root, id, tx, height, s') && s.cs != []
    ensures InChain(s.chain[..s.done], s.last)
  {
    hide W.Find, W.Unique, W.Total, W.Keys, BlockGood, Save, InChain, Proven, DistinctRoots, Carries;
    if !InChain(s.chain[..s.done], s.last) {
      assert LastRecord(s.cs).includedIn.Some?;
      NotYet(e, s);
      W.SpendsHeld(s.us, tx.inputs, LastRecord(s.cs).tx.inputs[0]);
    }
  }

  /** Before the wallet has processed a mined commitment, it holds what that spent first, which is spent. */
  lemma NotYet(e: Setup, s: Net)
    requires ChainGood(s) && LastGood(e, s) && s.cs != []
    requires InChain(s.chain, s.last) && !InChain(s.chain[..s.done], s.last)
    ensures Spent(s.chain, LastRecord(s.cs).tx.inputs[0]) && W.Find(s.us, LastRecord(s.cs).tx.inputs[0]).Some?
  {
    hide W.Find, W.Unique, BlockGood, Spent, InChain;
    var c := LastRecord(s.cs);
    MinedSpends(s.cs, s.headers, s.chain, s.done, c);
    var i: nat, j: nat :| i >= s.done && SpendsAt(s.chain, i, j, c.tx.inputs[0]);
    NotSpentBefore(s, s.done, i, j, c.tx.inputs[0]);
  }

  lemma ChangeHeld(us: seq<W.Utxo>, last: Digest)
    ensures W.Find(us, ChangeOf(last)).Some? <==> W.HoldsChange(us, last)
  {
    W.FindIs(us, ChangeOf(last));
    if i :| 0 <= i < |us| && W.Key(us[i]) == ChangeOf(last) {
      assert W.IsChange(us[i], last);
    }
    if i :| 0 <= i < |us| && W.IsChange(us[i], last) {
      assert W.Key(us[i]) == ChangeOf(last);
    }
  }

  /** The new record follows the last one if and only if that one left change. */
  lemma NextFollows(e: Setup, s: Net, root: Digest, id: Digest, tx: Tx, height: int, s': Net)
    requires Good(e, s) && CommitStep(e, s, root, id, tx, height, s') && s.cs != []
    ensures Follows(LastRecord(s.cs), S.NewRecord(root, (id, tx), height)) <==> HasChange(LastRecord(s.cs))
  {
    hide W.Find, W.Unique, W.Total, W.Keys, W.HoldsChange, Save, InChain, Spent, Carries,
         ListGood, ChainGood, LinksGood;
    WalletHasCaughtUp(e, s, root, id, tx, height, s');
    FirstSpent(s.us, s.last, root, e.myScript, tx);
    ChangeHeld(s.us, s.last);
  }

  lemma SomethingSpent(us: seq<W.Utxo>, inputs: seq<OutPoint>)
    requires W.Total(us) > 0 && multiset(inputs) == multiset(W.Keys(us))
    ensures |inputs| > 0 && inputs[0] in inputs && W.Find(us, inputs[0]).Some?
  {
    W.TotalNone();
    W.KeysAre(us);
    W.SameLength(inputs, W.Keys(us));
    W.SpendsHeld(us, inputs, inputs[0]);
  }

  /** The wallet after a commit: the new transaction is in no block, and its change nowhere yet. */
  lemma CommitKeepsLast(e: Setup, s: Net, root: Digest, id: Digest, tx: Tx, height: int, s': Net)
    requires Good(e, s) && e.mine(e.myScript) && CommitStep(e, s, root, id, tx, height, s')
    requires s'.cs == s.cs + [S.NewRecord(root, (id, tx), height)]
    ensures LastGood(e, s')
  {
    hide W.Find, W.Unique, W.Total, W.Keys, Save, ListGood, LinksGood, BlockGood, Carries, W.HoldsChange, Spent;
    SomethingSpent(s.us, tx.inputs);
    W.FindIs(s.us, ChangeOf(id));
    assert W.Find(s.us, ChangeOf(id)).None?;
    PartInChain(s.chain, s.done, id);
  }

  lemma CommitKeepsChain(e: Setup, s: Net, root: Digest, id: Digest, tx: Tx, height: int, s': Net)
    requires ChainGood(s) && CommitStep(e, s, root, id, tx, height, s')
    requires s'.cs == s.cs + [S.NewRecord(root, (id, tx), height)]
    ensures ChainGood(s')
  {
    hide W.Find, W.Unique, W.Total, W.IsCommit, Save, Spent;
    forall i | 0 <= i < |s'.chain|
      ensures BlockGood(s'.cs, s'.headers, s'.chain[i])
    {
      var b := s.chain[i];
      assert BlockGood(s.cs, s.headers, b);
      InNoBlock(s.chain, i, id);
      assert forall j :: 0 <= j < |b.txs| ==> b.txs[j].id == b.block.txids[j] && b.block.txids[j] in b.block.txids;
      assert forall k :: 0 <= k < |s.cs| ==> s'.cs[k] == s.cs[k];
    }
  }

  lemma CommitKeeps(e: Setup, s: Net, root: Digest, id: Digest, tx: Tx, height: int, s': Net)
    requires Good(e, s) && e.mine(e.myScript) && CommitStep(e, s, root, id, tx, height, s')
    ensures Good(e, s') && |s'.cs| == |s.cs| + 1 && s'.cs[..|s.cs|] == s.cs
  {
    hide W.Find, W.Unique, W.Total, W.IsCommit, Save, ChainGood, LastGood, Included, Follows, InChain, Spent;
    var c := S.NewRecord(root, (id, tx), height);
    SaveFresh(s.cs, c, []);
    CommitKeepsLast(e, s, root, id, tx, height, s');
    CommitKeepsChain(e, s, root, id, tx, height, s');
    if s.cs != [] {
      NextFollows(e, s, root, id, tx, height, s');
    }
  }

  // ----- all runs -----

  lemma NextKeeps(e: Setup, s: Net, s': Net)
    requires Good(e, s) && e.mine(e.myScript) && Next(e, s, s')
    ensures Good(e, s')
  {
    hide Good, MineStep, ServerStep, WalletStep, CommitStep;
    if b :| MineStep(s, b, s') {
      MineKeeps(e, s, b, s');
    } else if ServerStep(e, s, s') {
      ServerKeeps(e, s, s');
    } else if WalletStep(e, s, s') {
      WalletKeeps(e, s, s');
    } else {
      var root, id, tx, height :| CommitStep(e, s, root, id, tx, height, s');
      CommitKeeps(e, s, root, id, tx, height, s');
    }
  }

  /** The invariant holds at every moment of every run. */
  lemma {:induction false} RunGood(e: Setup, ss: seq<Net>, i: nat)
    requires IsRun(e, ss) && i < |ss|
    ensures Good(e, ss[i])
  {
    if i > 0 {
      hide Good, Next;
      RunGood(e, ss, i - 1);
      NextKeeps(e, ss[i - 1], ss[i]);
    }
  }

  /** Begins with the maiden record, and every record that has a successor left change. */
  predicate Continuous(maiden: Digest, rs: Log)
  {
    (rs != [] ==> rs[0].commitment == maiden) && forall i :: 0 <= i < |rs| - 1 ==> HasChange(rs[i])
  }

  lemma ChainIffContinuous(maiden: Digest, cs: Log, n: nat)
    requires LinksGood(cs) && n <= |cs|
    ensures IsChain(maiden, cs[..n]) <==> Continuous(maiden, cs[..n])
  {
    hide Follows, HasChange;
    var rs := cs[..n];
    assert forall i :: 0 <= i < n ==> rs[i] == cs[i];
    if IsChain(maiden, rs) {
      forall i | 0 <= i < |rs| - 1
        ensures HasChange(rs[i])
      {
        assert Follows(rs[i], rs[i + 1]) && Follows(cs[i + 1 - 1], cs[i + 1]);
      }
    }
    if Continuous(maiden, rs) {
      forall i | 0 < i < |rs|
        ensures Follows(rs[i - 1], rs[i])
      {
        assert HasChange(rs[i - 1]) && HasChange(cs[i - 1]);
      }
    }
  }

  /**
   At every moment of every run: the list is a chain from the maiden root, and clients accept its mined
   part, if and only if the first root committed to was the maiden one and every commitment but the
   last left change.
   */
  lemma RunChain(e: Setup, ss: seq<Net>, i: nat)
    requires IsRun(e, ss) && i < |ss|
    ensures var cs := ss[i].cs;
            && (IsChain(e.maiden, cs) <==> Continuous(e.maiden, cs))
            && (Accepted(e.g, ss[i].headers, e.maiden, cs[..MinedEnd(cs)]) <==>
                Continuous(e.maiden, cs[..MinedEnd(cs)]))
  {
    hide IsRun, IsChain, Continuous, Accepted, ChainGood, LastGood, LinksGood;
    RunGood(e, ss, i);
    var cs := ss[i].cs;
    ChainIffContinuous(e.maiden, cs, |cs|);
    ChainIffContinuous(e.maiden, cs, MinedEnd(cs));
    assert cs[..|cs|] == cs;
    MinedPartAccepted(e.g, ss[i].headers, e.maiden, cs);
  }

  /** A commitment leaves change if and only if the wallet had more than the fee and the smallest output. */
  lemma ChangeIffFunds(e: Setup, s: Net, root: Digest, id: Digest, tx: Tx, height: int, s': Net)
    requires CommitStep(e, s, root, id, tx, height, s')
    ensures HasChange(S.NewRecord(root, (id, tx), height)) <==> W.Total(s.us) > W.FEE + W.MINOUTPUT
  {
  }

  /**
   A fresh server begins with the trigger instead of the maiden statement: nobody ever accepts what it
   has mined, unless the trigger is the maiden statement or the hash function of the trie breaks.
   */
  lemma FreshServerRejected(e: Setup, h: HashFn, ss: seq<Net>, i: nat, trigger: Bytes, statement: Bytes)
    requires IsRun(e, ss) && i < |ss| && MinedEnd(ss[i].cs) > 0
    requires S.RootIs(h, map[ZERO := trigger], ss[i].cs[0].commitment) && S.RootIs(h, map[ZERO := statement], e.maiden)
    ensures Accepted(e.g, ss[i].headers, e.maiden, ss[i].cs[..MinedEnd(ss[i].cs)]) ==>
              trigger == statement || K.Clash(h, 32, map[ZERO := trigger], map[ZERO := statement])
  {
    hide IsRun, Accepted, K.Clash, S.RootIs;
    var cs := ss[i].cs;
    if Accepted(e.g, ss[i].headers, e.maiden, cs[..MinedEnd(cs)]) {
      FirstMustBeMaiden(e.g, ss[i].headers, e.maiden, cs[..MinedEnd(cs)]);
      FirstRootIsMaiden(h, map[ZERO := trigger], cs[0].commitment, statement, e.maiden);
    }
  }

  /** Whatever is unspent can be committed with: the wallet can build the transaction for any new root. */
  lemma CommitPossible(e: Setup, s: Net, root: Digest, id: Digest, height: int) returns (tx: Tx, s': Net)
    requires NonePending(s.cs) && NewRoot(s.cs, root) && W.Total(s.us) >= W.FEE && NewId(s, id)
    requires forall i :: 0 <= i < |s.us| ==> !Spent(s.chain, W.Key(s.us[i]))
    ensures CommitStep(e, s, root, id, tx, height, s')
  {
    hide W.Total, W.Keys, W.Fronted, Save, NonePending, NewRoot, Spent, NewId;
    var k := -1;
    if W.HoldsChange(s.us, s.last) {
      k :| 0 <= k < |s.us| && W.IsChange(s.us[k], s.last);
    }
    W.FrontedSame(s.us, k);
    var left := W.Total(s.us) - W.FEE;
    var data := TxOut(0, [0x6a, 32] + root);
    tx := Tx(W.Keys(W.Fronted(s.us, k)), if left > W.MINOUTPUT then [data, TxOut(left, e.myScript)] else [data]);
    forall o | o in tx.inputs
      ensures !Spent(s.chain, o)
    {
      W.SpendsHeld(s.us, tx.inputs, o);
      W.FindIs(s.us, o);
    }
    s' := s.(cs := Save(s.cs, S.NewRecord(root, (id, tx), height)), last := id);
  }

  // ----- a run in which the change runs out -----

  function Tag(i: Byte): Digest
  {
    [i, 0, 0, 0, 0, 0, 0, 0, 0, 0, 0, 0, 0, 0, 0, 0, 0, 0, 0, 0, 0, 0, 0, 0, 0, 0, 0, 0, 0, 0, 0, 0]
  }

  lemma Tags(i: Byte, j: Byte)
    ensures Tag(i) == Tag(j) <==> i == j
  {
    assert Tag(i)[0] == i && Tag(j)[0] == j;
  }

  function Demo(g: HashFn): Setup { Setup(g, Tag(9), (x: Bytes) => x == [1], [1]) }

  function Data(root: Digest): TxOut { TxOut(0, [0x6a, 32] + root) }

  /** The first commitment spends all of 2000 satoshi and leaves no change. */
  const POOR_TX: Tx := Tx([OutPoint(Tag(1), 0)], [Data(Tag(9))])

  /** The second spends a deposit. */
  const RICH_TX: Tx := Tx([OutPoint(Tag(3), 0)], [Data(Tag(8)), TxOut(4000, [1])])

  const DEPOSIT: Tx := Tx([], [TxOut(5000, [1])])
  const BLOCK1: NetBlock := NetBlock(Block(Tag(5), Tag(2), [Tag(2)]), [W.Mined(Tag(2), POOR_TX)])
  const BLOCK2: NetBlock := NetBlock(Block(Tag(6), Tag(3), [Tag(3)]), [W.Mined(Tag(3), DEPOSIT)])
  const COIN1: W.Utxo := W.Utxo(Tag(1), 0, 2000, [1])
  const COIN2: W.Utxo := W.Utxo(Tag(3), 0, 5000, [1])

  function Poor(): Record { S.NewRecord(Tag(9), (Tag(2), POOR_TX), 0) }
  function PoorMined(): Record { Poor().(includedIn := Some(Tag(5))) }
  function Rich(): Record { S.NewRecord(Tag(8), (Tag(4), RICH_TX), 0) }

  /** One coin makes one input. */
  lemma OneCoin(u: W.Utxo)
    ensures W.Total([u]) == u.value && W.Keys([u]) == [W.Key(u)] && W.Unique([u])
    ensures forall o :: W.Find([u], o) == if o == W.Key(u) then Some(u) else None
  {
    W.TotalNone();
    W.TotalAppend([], u);
    assert [] + [u] == [u];
    forall o
      ensures W.Find([u], o) == if o == W.Key(u) then Some(u) else None
    {
      assert [u][..0] == [];
    }
  }

  /** What one transaction does to an outpoint. */
  lemma OneTx(mine: Bytes -> bool, t: W.Mined, o: OutPoint, was: Option<W.Utxo>)
    ensures W.After(mine, [t], o, was) == W.Effect(mine, t, o, was)
  {
    assert [t][..0] == [];
  }

  lemma FirstCommit(g: HashFn, s: Net, s': Net)
    requires s == Net([], [COIN1], ZERO, [], 0, 0, map[])
    requires s' == Net([Poor()], [COIN1], Tag(2), [], 0, 0, map[])
    ensures CommitStep(Demo(g), s, Tag(9), Tag(2), POOR_TX, 0, s')
  {
    OneCoin(COIN1);
    Tags(1, 2);
    SaveFirst(Poor());
    assert forall o :: !Spent([], o);
    assert W.IsCommit([COIN1], ZERO, Tag(9), [1], POOR_TX);
  }

  lemma FirstMined(s: Net, s': Net)
    requires s == Net([Poor()], [COIN1], Tag(2), [], 0, 0, map[])
    requires s' == Net([Poor()], [COIN1], Tag(2), [BLOCK1], 0, 0, map[Tag(5) := Tag(2)])
    ensures MineStep(s, BLOCK1, s')
  {
    assert [] + [BLOCK1] == [BLOCK1];
    assert forall o :: !Spent([], o);
  }

  lemma FirstSeen(g: HashFn, s: Net, s': Net)
    requires s == Net([Poor()], [COIN1], Tag(2), [BLOCK1], 0, 0, map[Tag(5) := Tag(2)])
    requires s' == Net([PoorMined()], [COIN1], Tag(2), [BLOCK1], 1, 0, map[Tag(5) := Tag(2)])
    ensures ServerStep(Demo(g), s, s')
  {
    assert AfterBlock(g, BLOCK1.block, Poor(), PoorMined());
  }

  lemma FirstProcessed(g: HashFn, s: Net, s': Net)
    requires s == Net([PoorMined()], [COIN1], Tag(2), [BLOCK1], 1, 0, map[Tag(5) := Tag(2)])
    requires s' == Net([PoorMined()], [], Tag(2), [BLOCK1], 1, 1, map[Tag(5) := Tag(2)])
    ensures WalletStep(Demo(g), s, s')
  {
    OneCoin(COIN1);
    forall o
      ensures W.Find([], o) == W.After(Demo(g).mine, BLOCK1.txs, o, W.Find([COIN1], o))
    {
      OneTx(Demo(g).mine, BLOCK1.txs[0], o, W.Find([COIN1], o));
    }
  }

  lemma DepositMined(s: Net, s': Net)
    requires s == Net([PoorMined()], [], Tag(2), [BLOCK1], 1, 1, map[Tag(5) := Tag(2)])
    requires s' == Net([PoorMined()], [], Tag(2), [BLOCK1, BLOCK2], 1, 1, map[Tag(5) := Tag(2), Tag(6) := Tag(3)])
    ensures MineStep(s, BLOCK2, s')
  {
    Tags(5, 6);
    Tags(2, 3);
    assert [BLOCK1] + [BLOCK2] == [BLOCK1, BLOCK2];
  }

  lemma DepositProcessed(g: HashFn, s: Net, s': Net)
    requires s == Net([PoorMined()], [], Tag(2), [BLOCK1, BLOCK2], 1, 1, map[Tag(5) := Tag(2), Tag(6) := Tag(3)])
    requires s' == Net([PoorMined()], [COIN2], Tag(2), [BLOCK1, BLOCK2], 1, 2, map[Tag(5) := Tag(2), Tag(6) := Tag(3)])
    ensures WalletStep(Demo(g), s, s')
  {
    OneCoin(COIN2);
    forall o
      ensures W.Find([COIN2], o) == W.After(Demo(g).mine, BLOCK2.txs, o, W.Find([], o))
    {
      OneTx(Demo(g).mine, BLOCK2.txs[0], o, W.Find([], o));
    }
  }

  lemma DemoSpent(o: OutPoint)
    ensures Spent([BLOCK1, BLOCK2], o) <==> o == OutPoint(Tag(1), 0)
  {
    SpentNone(o, ZERO);
    SpentMore([], BLOCK1, o);
    SpentMore([BLOCK1], BLOCK2, o);
    assert [] + [BLOCK1] == [BLOCK1] && [BLOCK1] + [BLOCK2] == [BLOCK1, BLOCK2];
    assert Leaves(BLOCK1, o) <==> !W.Spends(BLOCK1.txs[0], o);
  }

  lemma DemoIds(id: Digest)
    ensures InChain([BLOCK1, BLOCK2], id) <==> id == Tag(2) || id == Tag(3)
  {
    SpentNone(ChangeOf(id), id);
    InChainMore([], BLOCK1, id);
    InChainMore([BLOCK1], BLOCK2, id);
    assert [] + [BLOCK1] == [BLOCK1] && [BLOCK1] + [BLOCK2] == [BLOCK1, BLOCK2];
  }

  lemma SecondCommit(g: HashFn, s: Net, s': Net)
    requires s == Net([PoorMined()], [COIN2], Tag(2), [BLOCK1, BLOCK2], 1, 2, map[Tag(5) := Tag(2), Tag(6) := Tag(3)])
    requires s' == s.(cs := [PoorMined(), Rich()], last := Tag(4))
    ensures CommitStep(Demo(g), s, Tag(8), Tag(4), RICH_TX, 0, s')
  {
    hide Spent, InChain;
    OneCoin(COIN2);
    Tags(8, 9);
    Tags(1, 3);
    Tags(1, 4);
    Tags(2, 4);
    Tags(3, 4);
    DemoSpent(OutPoint(Tag(3), 0));
    DemoSpent(ChangeOf(Tag(4)));
    DemoIds(Tag(4));
    assert W.IsCommit([COIN2], Tag(2), Tag(8), [1], RICH_TX);
    assert Save([PoorMined()], Rich()) == [PoorMined()] + [Rich()] == [PoorMined(), Rich()];
  }

  /**
   A wallet with 2000 satoshi commits to the maiden root and, after that is mined and there was a deposit,
   to another root: the list is in order and begins with the maiden root, but it is not a chain.
   */
  lemma ChangeRunsOut(g: HashFn) returns (ss: seq<Net>)
    ensures IsRun(Demo(g), ss) && |ss| == 8
    ensures ss[7].cs == [PoorMined(), Rich()] && ss[7].cs[0].commitment == Demo(g).maiden && !IsChain(Tag(9), ss[7].cs)
  {
    var headers1, headers2 := map[Tag(5) := Tag(2)], map[Tag(5) := Tag(2), Tag(6) := Tag(3)];
    var s0 := Net([], [COIN1], ZERO, [], 0, 0, map[]);
    var s1 := Net([Poor()], [COIN1], Tag(2), [], 0, 0, map[]);
    var s2 := Net([Poor()], [COIN1], Tag(2), [BLOCK1], 0, 0, headers1);
    var s3 := Net([PoorMined()], [COIN1], Tag(2), [BLOCK1], 1, 0, headers1);
    var s4 := Net([PoorMined()], [], Tag(2), [BLOCK1], 1, 1, headers1);
    var s5 := Net([PoorMined()], [], Tag(2), [BLOCK1, BLOCK2], 1, 1, headers2);
    var s6 := Net([PoorMined()], [COIN2], Tag(2), [BLOCK1, BLOCK2], 1, 2, headers2);
    var s7 := s6.(cs := [PoorMined(), Rich()], last := Tag(4));
    hide MineStep, ServerStep, WalletStep, CommitStep, W.Unique;
    OneCoin(COIN1);
    FirstCommit(g, s0, s1);
    FirstMined(s1, s2);
    FirstSeen(g, s2, s3);
    FirstProcessed(g, s3, s4);
    DepositMined(s4, s5);
    DepositProcessed(g, s5, s6);
    SecondCommit(g, s6, s7);
    ss := [s0, s1, s2, s3, s4, s5, s6, s7];
    Tags(2, 3);
    assert !Follows(PoorMined(), Rich());
    assert Follows(ss[7].cs[0], ss[7].cs[1]) == Follows(PoorMined(), Rich());
  }

  // ----- over time -----

  /** Records are only added and mined, and headers only added. */
  ghost predicate Grows(s: Net, s': Net)
  {
    && |s.cs| <= |s'.cs|
    && (forall i :: 0 <= i < |s.cs| ==> SameName(s.cs[i], s'.cs[i]))
    && (forall b :: b in s.headers ==> b in s'.headers && s'.headers[b] == s.headers[b])
  }

  ghost predicate SameName(c: Record, d: Record)
  {
    c.commitment == d.commitment && c.txHash == d.txHash && c.tx == d.tx && (c.includedIn.Some? ==> d.includedIn.Some?)
  }

  lemma NextGrows(e: Setup, s: Net, s': Net)
    requires Good(e, s) && e.mine(e.myScript) && Next(e, s, s')
    ensures Grows(s, s')
  {
    hide Good, WalletStep, Seen, CommitStep;
    if b :| MineStep(s, b, s') {
    } else if ServerStep(e, s, s') {
      SeenSame(e.g, s.chain[s.seen].block, s.cs, s'.cs);
      assert forall i :: 0 <= i < |s.cs| ==> SameButMined(s.chain[s.seen].block, s.cs[i], s'.cs[i]);
    } else if WalletStep(e, s, s') {
      WalletGrows(e, s, s');
    } else {
      var root, id, tx, height :| CommitStep(e, s, root, id, tx, height, s');
      CommitKeeps(e, s, root, id, tx, height, s');
      CommitHeaders(e, s, root, id, tx, height, s');
      assert forall i :: 0 <= i < |s.cs| ==> s'.cs[..|s.cs|][i] == s'.cs[i];
    }
  }

  lemma WalletGrows(e: Setup, s: Net, s': Net)
    requires WalletStep(e, s, s')
    ensures s'.cs == s.cs && s'.headers == s.headers
  {
  }

  lemma CommitHeaders(e: Setup, s: Net, root: Digest, id: Digest, tx: Tx, height: int, s': Net)
    requires CommitStep(e, s, root, id, tx, height, s')
    ensures s'.headers == s.headers
  {
  }

  lemma GrowsTwice(r: Net, s: Net, t: Net)
    requires Grows(r, s) && Grows(s, t)
    ensures Grows(r, t)
  {
    forall i | 0 <= i < |r.cs|
      ensures SameName(r.cs[i], t.cs[i])
    {
      assert SameName(r.cs[i], s.cs[i]) && SameName(s.cs[i], t.cs[i]);
    }
  }

  lemma GrowsNone(s: Net)
    ensures Grows(s, s)
  {
  }

  lemma {:induction false} RunGrows(e: Setup, ss: seq<Net>, i: nat, j: nat)
    requires IsRun(e, ss) && i <= j < |ss|
    ensures Grows(ss[i], ss[j])
    decreases j
  {
    hide Good, Next, Grows;
    if i < j {
      RunGrows(e, ss, i, j - 1);
      RunGood(e, ss, j - 1);
      NextGrows(e, ss[j - 1], ss[j]);
      GrowsTwice(ss[i], ss[j - 1], ss[j]);
    } else {
      GrowsNone(ss[i]);
    }
  }

  lemma MinedEndGrows(s: Net, s': Net)
    requires Grows(s, s') && OnlyLastPending(s'.cs)
    ensures MinedEnd(s.cs) <= MinedEnd(s'.cs)
  {
    if |s.cs| > 0 && |s'.cs| == |s.cs| {
      assert SameName(s.cs[|s.cs| - 1], s'.cs[|s.cs| - 1]);
    }
  }

  /** A record mined at one moment is included for the headers of any later one. */
  lemma StillIncluded(g: HashFn, s: Net, s': Net, x: nat)
    requires Proven(g, s.headers, s.cs) && OnlyLastPending(s.cs) && Grows(s, s') && x < MinedEnd(s.cs)
    ensures Included(g, s'.headers, s.cs[x])
  {
    assert Included(g, s.headers, s.cs[x]);
  }

  /** Included records with the same names are accepted together. */
  lemma SameNamesAccepted(g: HashFn, headers: map<Digest, Digest>, maiden: Digest, xs: Log, ys: Log)
    requires |xs| == |ys| && forall i :: 0 <= i < |xs| ==> SameName(xs[i], ys[i])
    requires forall i :: 0 <= i < |xs| ==> Included(g, headers, xs[i]) && Included(g, headers, ys[i])
    ensures Accepted(g, headers, maiden, xs) <==> Accepted(g, headers, maiden, ys)
  {
    hide Included;
    forall i | 0 <= i < |xs|
      ensures Links(maiden, Before(xs, i), xs[i]) <==> Links(maiden, Before(ys, i), ys[i])
    {
      assert SameName(xs[i], ys[i]) && (i > 0 ==> SameName(xs[i - 1], ys[i - 1]));
    }
  }

  /** What the client had at one moment and is answered at another has the names of the list then. */
  lemma HadAndAnswer(g: HashFn, s: Net, s': Net, k: nat)
    requires Proven(g, s.headers, s.cs) && OnlyLastPending(s.cs) && Grows(s, s')
    requires Proven(g, s'.headers, s'.cs) && OnlyLastPending(s'.cs) && k <= MinedEnd(s.cs) && k <= MinedEnd(s'.cs)
    ensures var xs, ys := s.cs[..k] + s'.cs[k..MinedEnd(s'.cs)], s'.cs[..MinedEnd(s'.cs)];
            && |xs| == |ys| && (forall i :: 0 <= i < |xs| ==> SameName(xs[i], ys[i]))
            && (forall i :: 0 <= i < |xs| ==> Included(g, s'.headers, xs[i]) && Included(g, s'.headers, ys[i]))
  {
    hide Included;
    var e := MinedEnd(s'.cs);
    var xs, ys := s.cs[..k] + s'.cs[k..e], s'.cs[..e];
    forall i | 0 <= i < |xs|
      ensures SameName(xs[i], ys[i]) && Included(g, s'.headers, xs[i]) && Included(g, s'.headers, ys[i])
    {
      assert ys[i] == s'.cs[i] && Included(g, s'.headers, s'.cs[i]);
      if i < k {
        assert xs[i] == s.cs[i] && SameName(s.cs[i], s'.cs[i]);
        StillIncluded(g, s, s', i);
      } else {
        assert xs[i] == s'.cs[i];
      }
    }
  }

  /**
   A client that has the first `k` records mined at any moment of any run asks at any later moment for
   what came after them. It is answered exactly the mined records from there on if and only if the root
   it names is not the zero root. It then accepts everything up to the last mined record if and only if
   the first root was the maiden one and every mined commitment but the last left change.
   */
  lemma ClientCatchesUp(e: Setup, ss: seq<Net>, i: nat, j: nat, k: nat)
    requires IsRun(e, ss) && i <= j < |ss| && k <= MinedEnd(ss[i].cs)
    ensures var had, cs, since := ss[i].cs[..k], ss[j].cs, Since(ss[i].cs, k);
            var answer, end := Mined(cs[HistoryStart(cs, since)..]), MinedEnd(cs);
            && k <= end && (answer == cs[k..end] <==> (k > 0 ==> since != ZERO))
            && (answer == cs[k..end] ==>
                  (Accepted(e.g, ss[j].headers, e.maiden, had + answer) <==> Continuous(e.maiden, cs[..end])))
  {
    hide IsRun, Mined, HistoryStart, Accepted, Continuous, IsChain, Proven, ChainGood, LastGood, LinksGood,
         Grows, DistinctRoots, OnlyLastPending, SameName, Included, InChain;
    RunGood(e, ss, i);
    RunGood(e, ss, j);
    RunGrows(e, ss, i, j);
    RunChain(e, ss, j);
    MinedEndGrows(ss[i], ss[j]);
    SameSince(ss[i], ss[j], k);
    AnswerContinues(ss[j].cs, k);
    HadAndAnswer(e.g, ss[i], ss[j], k);
    var cs := ss[j].cs;
    SameNamesAccepted(e.g, ss[j].headers, e.maiden, ss[i].cs[..k] + cs[k..MinedEnd(cs)], cs[..MinedEnd(cs)]);
  }

  lemma SameSince(s: Net, s': Net, k: nat)
    requires Grows(s, s') && k <= |s.cs|
    ensures k <= |s'.cs| && Since(s.cs, k) == Since(s'.cs, k)
  {
    if k > 0 {
      assert SameName(s.cs[k - 1], s'.cs[k - 1]);
    }
  }
}
