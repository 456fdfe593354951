/** Server, ledger and clients together. */
module EndToEnd {
  import opened Bits
  import opened Trie
  import opened Merkle
  import opened Records
  import opened Ledger
  import opened Client
  import opened Binding
  import K = Copies
  import S = Server
  import W = Wallet

  /** Every mined record carries a proof that a client with these headers accepts. */
  ghost predicate Proven(h: HashFn, headers: map<Digest, Digest>, cs: Log)
  {
    forall i :: 0 <= i < |cs| && cs[i].includedIn.Some? ==> Included(h, headers, cs[i])
  }

  /** A commitment spends the last one's change first if and only if the wallet holds it. */
  lemma FirstSpent(us: seq<W.Utxo>, last: Digest, root: Digest, myScript: Bytes, tx: Tx)
    requires W.IsCommit(us, last, root, myScript, tx)
    ensures |tx.inputs| > 0 && tx.inputs[0] == OutPoint(last, 1) <==> W.HoldsChange(us, last)
  {
    hide W.Find, W.Total, W.Keys;
    W.SpendsHeld(us, tx.inputs, OutPoint(last, 1));
    W.FindIs(us, OutPoint(last, 1));
    if |tx.inputs| > 0 && tx.inputs[0] == OutPoint(last, 1) {
      var i :| 0 <= i < |us| && W.Key(us[i]) == OutPoint(last, 1);
      assert W.IsChange(us[i], last);
    }
  }

  /** Every block keeps the mined records acceptable. */
  lemma BlockKeepsProven(h: HashFn, headers: map<Digest, Digest>, b: Block, before: Log, cs: Log)
    requires Proven(h, headers, before) && Seen(h, b, before, cs, |cs|)
    requires b.hash in headers && headers[b.hash] == b.merkleRoot
    ensures Proven(h, headers, cs)
  {
    forall i | 0 <= i < |cs| && cs[i].includedIn.Some?
      ensures Included(h, headers, cs[i])
    {
      assert AfterBlock(h, b, before[i], cs[i]);
    }
  }

  /** Records with distinct roots that are all included are accepted in order if and only if they form a chain. */
  lemma AcceptedIffChain(h: HashFn, headers: map<Digest, Digest>, maiden: Digest, rs: Log)
    requires DistinctRoots(rs) && forall i :: 0 <= i < |rs| ==> Included(h, headers, rs[i])
    ensures Accepted(h, headers, maiden, rs) <==> IsChain(maiden, rs)
  {
    hide Included, Follows;
    if IsChain(maiden, rs) {
      forall i | 0 <= i < |rs|
        ensures Links(maiden, Before(rs, i), rs[i])
      {
        if i > 0 {
          assert Follows(rs[i - 1], rs[i]);
        }
      }
    }
    if Accepted(h, headers, maiden, rs) {
      assert forall i :: 0 <= i < |rs| ==> Links(maiden, Before(rs, i), rs[i]);
      forall i | 0 < i < |rs|
        ensures Follows(rs[i - 1], rs[i])
      {
        assert Links(maiden, Before(rs, 0), rs[0]) && rs[0].commitment != rs[i].commitment;
      }
    }
  }

  /** The mined part of a well-kept list is accepted from the start if and only if it is a chain. */
  lemma MinedPartAccepted(h: HashFn, headers: map<Digest, Digest>, maiden: Digest, cs: Log)
    requires DistinctRoots(cs) && OnlyLastPending(cs) && Proven(h, headers, cs)
    ensures Accepted(h, headers, maiden, cs[..MinedEnd(cs)]) <==> IsChain(maiden, cs[..MinedEnd(cs)])
  {
    hide Included, IsChain, Accepted;
    var rs := cs[..MinedEnd(cs)];
    assert forall i :: 0 <= i < |rs| ==> rs[i] == cs[i];
    AcceptedIffChain(h, headers, maiden, rs);
  }

  /** Nobody accepts a sequence that does not begin with the maiden record. */
  lemma FirstMustBeMaiden(h: HashFn, headers: map<Digest, Digest>, maiden: Digest, rs: Log)
    requires |rs| > 0 && Accepted(h, headers, maiden, rs)
    ensures rs[0].commitment == maiden
  {
    assert Links(maiden, Before(rs, 0), rs[0]);
  }

  /**
   The first root of a server that starts with the dictionary `d` is the maiden root, which stands for
   the maiden statement alone, if and only if `d` is just that, up to a break of the hash function. On
   a fresh full server `d` holds the random trigger.
   */
  lemma FirstRootIsMaiden(h: HashFn, d: map<Bytes, Bytes>, root: Digest, statement: Bytes, maiden: Digest)
    requires S.RootIs(h, d, root) && S.RootIs(h, map[ZERO := statement], maiden)
    ensures d == map[ZERO := statement] ==> root == maiden
    ensures root == maiden ==> d == map[ZERO := statement] || K.Clash(h, 32, d, map[ZERO := statement])
    ensures forall trigger :: d == map[ZERO := trigger] ==> (d == map[ZERO := statement] <==> trigger == statement)
  {
    hide K.Clash, HashOf;
    if root == maiden {
      K.SameCommitmentSameMap(h, 32, d, map[ZERO := statement]);
    }
    forall trigger | d == map[ZERO := trigger]
      ensures d == map[ZERO := statement] <==> trigger == statement
    {
      assert d[ZERO] == trigger;
    }
  }

  lemma FirstIndexIs(cs: Log, k: nat)
    requires DistinctRoots(cs) && k < |cs|
    ensures FirstIndex(cs, cs[k].commitment) == k
  {
    var i := FirstIndex(cs, cs[k].commitment);
    assert 0 <= i;
  }

  /** The root a client that has the first `k` records names: the last of them, the zero root for none. */
  function Since(cs: Log, k: nat): Digest
    requires k <= |cs|
  {
    if k == 0 then ZERO else cs[k - 1].commitment
  }

  /** What the server answers continues there if and only if the root named is not mistaken for the zero root. */
  lemma AnswerContinues(cs: Log, k: nat)
    requires OnlyLastPending(cs) && DistinctRoots(cs) && k <= MinedEnd(cs)
    ensures Mined(cs[HistoryStart(cs, Since(cs, k))..]) == cs[k..MinedEnd(cs)] <==> (k > 0 ==> Since(cs, k) != ZERO)
  {
    hide Mined, FirstIndex, OnlyLastPending;
    if k > 0 {
      FirstIndexIs(cs, k - 1);
    }
    HistoryContiguous(cs, HistoryStart(cs, Since(cs, k)));
  }

  /**
   All clients see the same statements: take two clients that accepted records equally long after a
   maiden record, each with a proof under its record's commitment, and a key that both proofs answer.
   The answers are equal if and only if the proofs do not divide the bytes of the leaf differently, or
   the proofs exhibit a break of the trie's hash function `h`, or the check of some record one of the
   blocks' hash function `g`.
   */
  lemma SameStatements(h: HashFn, g: HashFn, w: World, maiden: Digest,
                       hx: map<Digest, Digest>, xs: seq<Record>, i: nat, p: Trie,
                       hy: map<Digest, Digest>, ys: seq<Record>, j: nat, q: Trie, k: Bytes)
    requires Lawful(g, w, hx) && Lawful(g, w, hy) && OneMaiden(w, maiden)
    requires Accepted(g, hx, maiden, xs) && AllTruthful(w, xs)
    requires Accepted(g, hy, maiden, ys) && AllTruthful(w, ys)
    requires i < |xs| && j < |ys| && Age(maiden, xs, i) == Age(maiden, ys, j)
    requires HashOf(h, p) == xs[i].commitment && HashOf(h, q) == ys[j].commitment
    requires Reaches(p, k, 0) && Reaches(q, k, 0)
    requires Lookup(p, k, 0) != Hidden && Lookup(q, k, 0) != Hidden
    ensures || (Lookup(p, k, 0) == Lookup(q, k, 0) <==> !Shifted(p, q, k, 0))
            || Damning(h, Explain(h, p, q, k, 0)) || AnyCollided(g, w, xs) || AnyCollided(g, w, ys)
  {
    hide Accepted, AllTruthful, Lawful, OneMaiden, Age, Explain, Damning, Lookup, Reaches, Shifted, AnyCollided;
    SameAgeSameRecord(g, w, maiden, hx, xs, i, hy, ys, j);
    if xs[i].commitment == ys[j].commitment {
      AnswersBound(h, p, q, k, 0);
    }
  }
}
