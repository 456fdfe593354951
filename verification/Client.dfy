/** The client's acceptance of commitment records, and what it buys under Bitcoin's rules. */
module Client {
  import opened Bits
  import opened Trie
  import opened Merkle
  import opened Records

  datatype Verdict = Accept | BlockNotFound | BadMerkleProof | BrokenChain | Panic

  /** The record's transaction hash folds to the Merkle root of a header the client has. */
  predicate Included(h: HashFn, headers: map<Digest, Digest>, r: Record)
  {
    && r.includedIn.Some? && r.includedIn.value in headers
    && Fold(h, r.txHash, r.proof.position, r.proof.hashes, |r.proof.hashes|) == headers[r.includedIn.value]
  }

  /** A maiden record is accepted anywhere; any other must follow the last accepted record. */
  predicate Links(maiden: Digest, last: Option<Record>, r: Record)
  {
    r.commitment == maiden || (last.Some? && Follows(last.value, r))
  }

  /** The verdict `v` on the record `r` after `last` has its cause, and no other verdict has. */
  predicate Caused(h: HashFn, headers: map<Digest, Digest>, maiden: Digest, last: Option<Record>, r: Record, v: Verdict)
  {
    && (v == Accept <==> Included(h, headers, r) && Links(maiden, last, r))
    && (v == BlockNotFound <==> r.includedIn.Some? && r.includedIn.value !in headers)
    && (v == BadMerkleProof <==> r.includedIn.Some? && r.includedIn.value in headers && !Included(h, headers, r))
    && (v == BrokenChain <==>
        Included(h, headers, r) && !Links(maiden, last, r) && last.Some? && |r.tx.inputs| > 0)
    && (v == Panic <==>
        || r.includedIn.None?
        || (Included(h, headers, r) && !Links(maiden, last, r) && (last.None? || r.tx.inputs == [])))
  }

  function Before(rs: seq<Record>, i: nat): Option<Record>
    requires i <= |rs|
  {
    if i == 0 then None else Some(rs[i - 1])
  }

  /** A sequence of records a fresh client accepts one after the other. */
  ghost predicate Accepted(h: HashFn, headers: map<Digest, Digest>, maiden: Digest, rs: seq<Record>)
  {
    forall i :: 0 <= i < |rs| ==> Included(h, headers, rs[i]) && Links(maiden, Before(rs, i), rs[i])
  }

  lemma AcceptedMore(h: HashFn, headers: map<Digest, Digest>, maiden: Digest, rs: seq<Record>, r: Record)
    requires Accepted(h, headers, maiden, rs)
    requires Included(h, headers, r) && Links(maiden, Before(rs, |rs|), r)
    ensures Accepted(h, headers, maiden, rs + [r]) && Before(rs + [r], |rs + [r]|) == Some(r)
  {
    hide Included, Links;
    forall i | 0 <= i < |rs + [r]|
      ensures Included(h, headers, (rs + [r])[i]) && Links(maiden, Before(rs + [r], i), (rs + [r])[i])
    {
      assert Before(rs + [r], i) == Before(rs, i);
    }
  }

  class ChainVerifier {
    const h: HashFn
    const maiden: Digest
    var headers: map<Digest, Digest>
    var lastServerCommitment: Option<Record>
    ghost var accepted: seq<Record>

    ghost predicate Valid()
      reads this
    {
      && lastServerCommitment == Before(accepted, |accepted|)
      && Accepted(h, headers, maiden, accepted)
    }

    constructor (h: HashFn, maiden: Digest, headers: map<Digest, Digest>)
      ensures Valid() && accepted == [] && this.h == h && this.maiden == maiden && this.headers == headers
    {
      this.h, this.maiden, this.headers := h, maiden, headers;
      lastServerCommitment, accepted := None, [];
    }

    /**
     Every verdict with its cause. An unmined record, one without inputs and a first record that is no
     maiden record panic.
     */
    method VerifyCommitment(comm: Record) returns (v: Verdict)
      requires Valid()
      ensures Caused(h, headers, maiden, lastServerCommitment, comm, v)
    {
      if comm.includedIn.None? {
        return Panic;
      }
      if comm.includedIn.value !in headers {
        return BlockNotFound;
      }
      var ok := Check(h, comm.proof, comm.txHash, headers[comm.includedIn.value]);
      if !ok {
        return BadMerkleProof;
      }
      if comm.commitment == maiden {
        return Accept;
      }
      if lastServerCommitment.None? || |comm.tx.inputs| == 0 {
        return Panic;
      }
      var first := comm.tx.inputs[0];
      if first.index != 1 || first.hash != lastServerCommitment.value.txHash {
        return BrokenChain;
      }
      return Accept;
    }

    /** The loop over a received history: it accepts the longest acceptable prefix and stops. */
    method ProcessHistory(hist: seq<Record>) returns (n: nat, v: Verdict)
      requires Valid()
      modifies this`lastServerCommitment, this`accepted
      ensures Valid() && n <= |hist| && accepted == old(accepted) + hist[..n]
      ensures v == Accept <==> n == |hist|
      ensures n < |hist| ==> Caused(h, headers, maiden, lastServerCommitment, hist[n], v)
    {
      hide Included, Links, Accepted, Before;
      n, v := 0, Accept;
      while n < |hist|
        invariant n <= |hist| && Valid() && accepted == old(accepted) + hist[..n] && v == Accept
      {
        v := VerifyCommitment(hist[n]);
        if v != Accept {
          return;
        }
        AcceptedMore(h, headers, maiden, accepted, hist[n]);
        assert old(accepted) + hist[..n + 1] == accepted + [hist[n]];
        accepted := accepted + [hist[n]];
        lastServerCommitment := Some(hist[n]);
        n := n + 1;
      }
    }
  }

  // ----- what acceptance means on one block chain -----

  /** The transactions mined, by hash, and the transaction hashes of each block. */
  datatype World = World(mined: map<Digest, Tx>, blocks: map<Digest, seq<Digest>>)

  /** Bitcoin's rules: headers commit to their blocks and no output is spent twice. */
  ghost predicate Lawful(h: HashFn, w: World, headers: map<Digest, Digest>)
  {
    && (forall b :: b in headers ==> b in w.blocks && |w.blocks[b]| > 0 && headers[b] == Root(h, w.blocks[b]))
    && (forall b, t :: b in w.blocks && t in w.blocks[b] ==> t in w.mined)
    && (forall s, t, o :: s in w.mined && t in w.mined && o in w.mined[s].inputs && o in w.mined[t].inputs ==> s == t)
  }

  ghost predicate OneMaiden(w: World, maiden: Digest)
  {
    forall s, t :: s in w.mined && t in w.mined && Carries(w.mined[s], maiden) && Carries(w.mined[t], maiden) ==> s == t
  }

  /**
   What the client takes on trust about a record: its raw transaction is the one its hash names, the
   commitment is in it, and its Merkle proof is as long as the block's tree is high.
   */
  ghost predicate Truthful(w: World, r: Record)
  {
    && (r.txHash in w.mined ==> w.mined[r.txHash] == r.tx)
    && Carries(r.tx, r.commitment)
    && (r.includedIn.Some? && r.includedIn.value in w.blocks ==>
          IsHeight(|w.blocks[r.includedIn.value]|, |r.proof.hashes|))
  }

  /** The check of the record's Merkle proof hashed a string that collides with one of its block's tree. */
  ghost predicate Collided(h: HashFn, w: World, r: Record)
  {
    && r.includedIn.Some? && r.includedIn.value in w.blocks
    && Collides(h, w.blocks[r.includedIn.value], |r.proof.hashes|,
                Images(h, r.txHash, r.proof.position, r.proof.hashes, |r.proof.hashes|))
  }

  ghost predicate AnyCollided(h: HashFn, w: World, rs: seq<Record>)
  {
    exists i :: 0 <= i < |rs| && Collided(h, w, rs[i])
  }

  ghost predicate AllTruthful(w: World, rs: seq<Record>)
  {
    forall i :: 0 <= i < |rs| ==> Truthful(w, rs[i])
  }

  /** An accepted record's transaction was mined, or the check of its proof collided. */
  lemma AcceptedIsMined(h: HashFn, w: World, headers: map<Digest, Digest>, r: Record)
    requires Lawful(h, w, headers) && Included(h, headers, r) && Truthful(w, r)
    ensures Collided(h, w, r) || (r.txHash in w.mined && w.mined[r.txHash] == r.tx && Carries(r.tx, r.commitment))
  {
    var hs := w.blocks[r.includedIn.value];
    OnlyTransactions(h, hs, |r.proof.hashes|, r.txHash, r.proof.position, r.proof.hashes);
  }

  lemma SpentOnce(h: HashFn, w: World, headers: map<Digest, Digest>, s: Digest, t: Digest, o: OutPoint)
    requires Lawful(h, w, headers) && s in w.mined && t in w.mined
    requires o in w.mined[s].inputs && o in w.mined[t].inputs
    ensures s == t
  {
  }

  /** How many records have been accepted since the last maiden record. */
  ghost function Age(maiden: Digest, rs: seq<Record>, i: nat): nat
    requires i < |rs|
  {
    if rs[i].commitment == maiden || i == 0 then 0 else 1 + Age(maiden, rs, i - 1)
  }

  /**
   Any two clients agree record by record: records accepted equally long after a maiden record are
   the same transaction with the same commitment, or the check of some record collided.
   */
  lemma {:induction false} SameAgeSameRecord(h: HashFn, w: World, maiden: Digest,
                                             hx: map<Digest, Digest>, xs: seq<Record>, i: nat,
                                             hy: map<Digest, Digest>, ys: seq<Record>, j: nat)
    requires Lawful(h, w, hx) && Lawful(h, w, hy) && OneMaiden(w, maiden)
    requires Accepted(h, hx, maiden, xs) && AllTruthful(w, xs)
    requires Accepted(h, hy, maiden, ys) && AllTruthful(w, ys)
    requires i < |xs| && j < |ys| && Age(maiden, xs, i) == Age(maiden, ys, j)
    ensures || (xs[i].txHash == ys[j].txHash && xs[i].commitment == ys[j].commitment && xs[i].tx == ys[j].tx)
            || AnyCollided(h, w, xs) || AnyCollided(h, w, ys)
    decreases i
  {
    hide Lawful, OneMaiden, Truthful, Included, Collided, Carries, Follows;
    var x, y := xs[i], ys[j];
    assert Links(maiden, Before(xs, i), x) && Links(maiden, Before(ys, j), y);
    if !AnyCollided(h, w, xs) && !AnyCollided(h, w, ys) {
      if Age(maiden, xs, i) == 0 {
        SameMaiden(h, w, maiden, hx, x, hy, y);
      } else {
        SameAgeSameRecord(h, w, maiden, hx, xs, i - 1, hy, ys, j - 1);
        SameSuccessor(h, w, hx, xs[i - 1], x, hy, ys[j - 1], y);
      }
    }
  }

  /** Two mined maiden records are one. */
  lemma SameMaiden(h: HashFn, w: World, maiden: Digest,
                   hx: map<Digest, Digest>, x: Record, hy: map<Digest, Digest>, y: Record)
    requires Lawful(h, w, hx) && Lawful(h, w, hy) && OneMaiden(w, maiden) && x.commitment == y.commitment == maiden
    requires Included(h, hx, x) && Truthful(w, x) && !Collided(h, w, x)
    requires Included(h, hy, y) && Truthful(w, y) && !Collided(h, w, y)
    ensures x.txHash == y.txHash && x.tx == y.tx
  {
    hide Lawful, Truthful, Included, Collided, Carries;
    AcceptedIsMined(h, w, hx, x);
    AcceptedIsMined(h, w, hy, y);
  }

  /** Two mined records that follow the same transaction are one. */
  lemma SameSuccessor(h: HashFn, w: World, hx: map<Digest, Digest>, px: Record, x: Record,
                      hy: map<Digest, Digest>, py: Record, y: Record)
    requires Lawful(h, w, hx) && Lawful(h, w, hy) && px.txHash == py.txHash && Follows(px, x) && Follows(py, y)
    requires Included(h, hx, x) && Truthful(w, x) && !Collided(h, w, x)
    requires Included(h, hy, y) && Truthful(w, y) && !Collided(h, w, y)
    ensures x.txHash == y.txHash && x.tx == y.tx && x.commitment == y.commitment
  {
    hide Lawful, Truthful, Included, Collided, Carries;
    AcceptedIsMined(h, w, hx, x);
    AcceptedIsMined(h, w, hy, y);
    SpentOnce(h, w, hx, x.txHash, y.txHash, x.tx.inputs[0]);
    CarriesOne(x.tx, x.commitment, y.commitment);
  }

  /** `xs` names the same transactions and commitments as the beginning of `ys`. */
  predicate PrefixOf(xs: seq<Record>, ys: seq<Record>)
  {
    |xs| <= |ys| && forall i :: 0 <= i < |xs| ==> xs[i].txHash == ys[i].txHash && xs[i].commitment == ys[i].commitment
  }

  /** As far as `xs` goes, both sequences have the maiden record at the same places. */
  predicate SameMaidens(maiden: Digest, xs: seq<Record>, ys: seq<Record>)
    requires |xs| <= |ys|
  {
    forall i :: 0 <= i < |xs| ==> (xs[i].commitment == maiden <==> ys[i].commitment == maiden)
  }

  lemma {:induction false} SameMaidensSameAge(maiden: Digest, xs: seq<Record>, ys: seq<Record>, i: nat)
    requires |xs| <= |ys| && SameMaidens(maiden, xs, ys) && i < |xs|
    ensures Age(maiden, xs, i) == Age(maiden, ys, i)
  {
    if i > 0 {
      SameMaidensSameAge(maiden, xs, ys, i - 1);
    }
  }

  /**
   Non-equivocation: of two sequences that clients accepted, the shorter is a prefix of the longer if
   and only if they have the maiden record at the same places, or the check of some record collided.
   */
  lemma NonEquivocation(h: HashFn, w: World, maiden: Digest,
                        hx: map<Digest, Digest>, xs: seq<Record>, hy: map<Digest, Digest>, ys: seq<Record>)
    requires Lawful(h, w, hx) && Lawful(h, w, hy) && OneMaiden(w, maiden)
    requires Accepted(h, hx, maiden, xs) && AllTruthful(w, xs)
    requires Accepted(h, hy, maiden, ys) && AllTruthful(w, ys)
    requires |xs| <= |ys|
    ensures (PrefixOf(xs, ys) <==> SameMaidens(maiden, xs, ys)) || AnyCollided(h, w, xs) || AnyCollided(h, w, ys)
  {
    hide Lawful, OneMaiden, Accepted, AllTruthful, Age, AnyCollided;
    if SameMaidens(maiden, xs, ys) && !AnyCollided(h, w, xs) && !AnyCollided(h, w, ys) {
      forall i | 0 <= i < |xs|
        ensures xs[i].txHash == ys[i].txHash && xs[i].commitment == ys[i].commitment
      {
        SameMaidensSameAge(maiden, xs, ys, i);
        SameAgeSameRecord(h, w, maiden, hx, xs, i, hy, ys, i);
      }
    }
  }

  /** The maiden record comes first and does not come again. */
  predicate MaidenOnlyFirst(maiden: Digest, rs: seq<Record>)
  {
    forall i :: 0 < i < |rs| ==> rs[i].commitment != maiden
  }

  /** Every accepted sequence begins with the maiden record, so clients that saw it only there never diverge. */
  lemma OneHistory(h: HashFn, w: World, maiden: Digest,
                   hx: map<Digest, Digest>, xs: seq<Record>, hy: map<Digest, Digest>, ys: seq<Record>)
    requires Lawful(h, w, hx) && Lawful(h, w, hy) && OneMaiden(w, maiden)
    requires Accepted(h, hx, maiden, xs) && AllTruthful(w, xs)
    requires Accepted(h, hy, maiden, ys) && AllTruthful(w, ys)
    requires MaidenOnlyFirst(maiden, xs) && MaidenOnlyFirst(maiden, ys)
    ensures PrefixOf(xs, ys) || PrefixOf(ys, xs) || AnyCollided(h, w, xs) || AnyCollided(h, w, ys)
  {
    hide Lawful, OneMaiden, AllTruthful, Included, AnyCollided;
    assert |xs| > 0 ==> Links(maiden, Before(xs, 0), xs[0]);
    assert |ys| > 0 ==> Links(maiden, Before(ys, 0), ys[0]);
    if |xs| <= |ys| {
      NonEquivocation(h, w, maiden, hx, xs, hy, ys);
    } else {
      NonEquivocation(h, w, maiden, hy, ys, hx, xs);
    }
  }

  /** A world, its headers and two accepted sequences to which all hypotheses of non-equivocation apply. */
  ghost predicate Applies(h: HashFn, w: World, maiden: Digest, headers: map<Digest, Digest>,
                          xs: seq<Record>, ys: seq<Record>)
  {
    && Lawful(h, w, headers) && OneMaiden(w, maiden)
    && Accepted(h, headers, maiden, xs) && AllTruthful(w, xs) && !AnyCollided(h, w, xs)
    && Accepted(h, headers, maiden, ys) && AllTruthful(w, ys) && !AnyCollided(h, w, ys)
  }

  /**
   Without that condition prefixes fail: the maiden record a client began with is accepted again at
   any time, and where another client went on to a further record the two sequences then differ. That
   the world is lawful, the records truthful and no check collided does not help.
   */
  lemma MaidenAgain(h: HashFn, w: World, headers: map<Digest, Digest>, maiden: Digest, xs: seq<Record>, b: Record)
    requires |xs| > 0 && Applies(h, w, maiden, headers, xs, xs + [b]) && b.commitment != maiden
    ensures Applies(h, w, maiden, headers, xs + [xs[0]], xs + [b])
    ensures !PrefixOf(xs + [xs[0]], xs + [b]) && !PrefixOf(xs + [b], xs + [xs[0]])
  {
    hide Lawful, OneMaiden, Included, Truthful, Collided;
    var ys := xs + [b];
    assert Included(h, headers, ys[0]) && Links(maiden, Before(ys, 0), ys[0]);
    AcceptedMore(h, headers, maiden, xs, xs[0]);
    var zs := xs + [xs[0]];
    forall i | 0 <= i < |zs|
      ensures Truthful(w, zs[i]) && !Collided(h, w, zs[i])
    {
      assert zs[i] == xs[if i < |xs| then i else 0];
    }
    assert zs[|xs|].commitment == maiden && ys[|xs|].commitment == b.commitment;
  }

  // ----- a world in which this happens -----

  const ONE: Digest :=
    [1, 0, 0, 0, 0, 0, 0, 0, 0, 0, 0, 0, 0, 0, 0, 0, 0, 0, 0, 0, 0, 0, 0, 0, 0, 0, 0, 0, 0, 0, 0, 0]

  function DataTx(commitment: Digest, inputs: seq<OutPoint>): Tx
  {
    Tx(inputs, [TxOut(0, [0x6a, 32] + commitment)])
  }

  /** A record for the transaction named `c`, alone in a block of the same name. */
  function Alone(c: Digest, inputs: seq<OutPoint>): Record
  {
    Record(c, c, 0, Some(c), MerkleProof(0, []), DataTx(c, inputs))
  }

  lemma AloneHolds(h: HashFn, w: World, headers: map<Digest, Digest>, c: Digest, inputs: seq<OutPoint>)
    requires c in w.mined && w.mined[c] == DataTx(c, inputs) && c in w.blocks && w.blocks[c] == [c]
    requires c in headers && headers[c] == c
    ensures Included(h, headers, Alone(c, inputs)) && Truthful(w, Alone(c, inputs)) && !Collided(h, w, Alone(c, inputs))
    ensures Root(h, w.blocks[c]) == c && Carries(w.mined[c], c)
  {
    assert Pow2(0) == 1;
  }

  /** Two blocks with one transaction each: the maiden commitment, and one that spends its change. */
  lemma MaidenAgainHappens(h: HashFn)
    ensures var a, b := Alone(ZERO, []), Alone(ONE, [OutPoint(ZERO, 1)]);
            var w := World(map[ZERO := a.tx, ONE := b.tx], map[ZERO := [ZERO], ONE := [ONE]]);
            var headers := map[ZERO := ZERO, ONE := ONE];
            && Applies(h, w, ZERO, headers, [a, a], [a, b])
            && !PrefixOf([a, a], [a, b]) && !PrefixOf([a, b], [a, a])
  {
    hide Included, Truthful, Collided, Carries, Root;
    var a, b := Alone(ZERO, []), Alone(ONE, [OutPoint(ZERO, 1)]);
    var w := World(map[ZERO := a.tx, ONE := b.tx], map[ZERO := [ZERO], ONE := [ONE]]);
    var headers := map[ZERO := ZERO, ONE := ONE];
    assert ZERO[0] != ONE[0];
    AloneHolds(h, w, headers, ZERO, []);
    AloneHolds(h, w, headers, ONE, [OutPoint(ZERO, 1)]);
    forall s, t | s in w.mined && t in w.mined && Carries(w.mined[s], ZERO) && Carries(w.mined[t], ZERO)
      ensures s == t
    {
      CarriesOne(w.mined[s], ZERO, s);
      CarriesOne(w.mined[t], ZERO, t);
    }
    assert Accepted(h, headers, ZERO, [a]) && Accepted(h, headers, ZERO, [a, b]);
    assert [a] + [b] == [a, b] && [a] + [a] == [a, a];
    MaidenAgain(h, w, headers, ZERO, [a], b);
  }
}
