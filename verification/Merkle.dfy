/**
 Block Merkle trees: the flat store that is filled row by row, the inclusion proof read off it by
 index arithmetic, and the check that folds a proof. The reference is the rule that pairs up hashes,
 the last one with itself if it is alone, until one is left.
 */
module Merkle {
  import opened Bits
  import opened Trie

  function Pow2(e: nat): (p: nat)
    ensures p > 0
  {
    if e == 0 then 1 else 2 * Pow2(e - 1)
  }

  /** The number of halvings that bring `n` to 1. */
  function Log2(n: nat): nat
    requires n > 0
  {
    if n == 1 then 0 else 1 + Log2(n / 2)
  }

  // ----- the reference -----

  /** The string hashed for the parent of pair `j`; a left hash without a right one is doubled. */
  function PairImage(hs: seq<Digest>, j: nat): Bytes
    requires 2 * j < |hs|
  {
    var l: Bytes, r: Bytes := hs[2 * j], (if 2 * j + 1 < |hs| then hs[2 * j + 1] else hs[2 * j]);
    l + r
  }

  /** One row up. */
  function Pair(h: HashFn, hs: seq<Digest>): (r: seq<Digest>)
    ensures |r| == (|hs| + 1) / 2
    ensures forall j :: 0 <= j < |r| ==> r[j] == h(PairImage(hs, j))
  {
    seq<Digest>((|hs| + 1) / 2, j requires 0 <= j < (|hs| + 1) / 2 => h(PairImage(hs, j)))
  }

  function Root(h: HashFn, hs: seq<Digest>): Digest
    requires |hs| > 0
    decreases |hs|
  {
    if |hs| == 1 then hs[0] else Root(h, Pair(h, hs))
  }

  /** Row `l` counted from the transactions. */
  function Row(h: HashFn, hs: seq<Digest>, l: nat): seq<Digest>
  {
    if l == 0 then hs else Pair(h, Row(h, hs, l - 1))
  }

  /** The least `e` with `n <= 2^e`. */
  ghost predicate IsHeight(n: nat, e: nat)
  {
    n <= Pow2(e) && (e > 0 ==> Pow2(e - 1) < n)
  }

  /** The rows halve: row `l` of a tree of height `e` needs height `e - l`. */
  lemma {:induction false} RowSize(h: HashFn, hs: seq<Digest>, e: nat, l: nat)
    requires |hs| > 0 && IsHeight(|hs|, e) && l <= e
    ensures |Row(h, hs, l)| > 0 && IsHeight(|Row(h, hs, l)|, e - l)
  {
    if l > 0 {
      RowSize(h, hs, e, l - 1);
      assert Pow2(e - l + 1) == 2 * Pow2(e - l);
    }
  }

  /** The last row is the root alone. */
  lemma {:induction false} TopRow(h: HashFn, hs: seq<Digest>, e: nat, l: nat)
    requires |hs| > 0 && IsHeight(|hs|, e) && l <= e
    ensures |Row(h, hs, l)| > 0 && Root(h, Row(h, hs, l)) == Root(h, hs)
    ensures l == e ==> Row(h, hs, l) == [Root(h, hs)]
  {
    RowSize(h, hs, e, l);
    if l > 0 {
      RowSize(h, hs, e, l - 1);
      TopRow(h, hs, e, l - 1);
    }
  }

  // ----- the store -----

  function Join(h: HashFn, l: Option<Digest>, r: Option<Digest>): Option<Digest>
  {
    if l.None? then None
    else
      var a: Bytes, b: Bytes := l.value, (if r.None? then l.value else r.value);
      Some(h(a + b))
  }

  /** Powers of two are their own next power. The source's test `n & (n - 1) == 0` says `n` is one. */
  function NextPowerOfTwo(n: nat): nat
    requires n > 0
  {
    if n == Pow2(Log2(n)) then n else Pow2(Log2(n) + 1)
  }

  lemma {:induction false} Log2Bounds(n: nat)
    requires n > 0
    ensures Pow2(Log2(n)) <= n < 2 * Pow2(Log2(n))
  {
    if n > 1 {
      Log2Bounds(n / 2);
    }
  }

  lemma NextPowerIsHeight(n: nat) returns (e: nat)
    requires n > 0
    ensures NextPowerOfTwo(n) == Pow2(e) && IsHeight(n, e)
  {
    Log2Bounds(n);
    if n == Pow2(Log2(n)) {
      e := Log2(n);
    } else {
      e := Log2(n) + 1;
    }
  }

  /** The array the builder leaves: transactions, padding, and every later cell joined from its two. */
  ghost predicate IsStore(h: HashFn, hs: seq<Digest>, m: seq<Option<Digest>>, e: nat)
  {
    && |hs| <= Pow2(e) && |m| == 2 * Pow2(e) - 1
    && (forall i :: 0 <= i < Pow2(e) ==> m[i] == if i < |hs| then Some(hs[i]) else None)
    && (forall j :: 0 <= j < Pow2(e) - 1 ==> m[Pow2(e) + j] == Join(h, m[2 * j], m[2 * j + 1]))
  }

  method BuildMerkleTreeStore(h: HashFn, hs: seq<Digest>) returns (merkles: array<Option<Digest>>, ghost e: nat)
    requires |hs| > 0
    ensures fresh(merkles)
    ensures IsHeight(|hs|, e) && IsStore(h, hs, merkles[..], e)
  {
    hide Pow2, NextPowerOfTwo, IsHeight;
    e := NextPowerIsHeight(|hs|);
    HeightCovers(|hs|, e);
    var nextPoT := NextPowerOfTwo(|hs|);
    var arraySize := nextPoT * 2 - 1;
    merkles := new Option<Digest>[arraySize](_ => None);
    for i := 0 to |hs|
      invariant forall k :: 0 <= k < arraySize ==> merkles[k] == if k < i then Some(hs[k]) else None
    {
      merkles[i] := Some(hs[i]);
    }
    JoinUp(h, hs, merkles, nextPoT);
  }

  lemma HeightCovers(n: nat, e: nat)
    requires IsHeight(n, e)
    ensures n <= Pow2(e) && Pow2(e) >= 1
  {
  }

  /** The loop that joins pairs of cells, writing at a moving offset. */
  method JoinUp(h: HashFn, hs: seq<Digest>, merkles: array<Option<Digest>>, nextPoT: nat)
    requires |hs| <= nextPoT && nextPoT >= 1 && merkles.Length == 2 * nextPoT - 1
    requires forall k :: 0 <= k < nextPoT ==> merkles[k] == if k < |hs| then Some(hs[k]) else None
    modifies merkles
    ensures forall k :: 0 <= k < nextPoT ==> merkles[k] == if k < |hs| then Some(hs[k]) else None
    ensures forall j :: 0 <= j < nextPoT - 1 ==> merkles[nextPoT + j] == Join(h, merkles[2 * j], merkles[2 * j + 1])
  {
    var arraySize := merkles.Length;
    var offset := nextPoT;
    var i := 0;
    while i < arraySize - 1
      invariant 0 <= i <= arraySize - 1 && i % 2 == 0 && offset == nextPoT + i / 2
      invariant forall k :: 0 <= k < nextPoT ==> merkles[k] == if k < |hs| then Some(hs[k]) else None
      invariant forall j :: 0 <= j < i / 2 ==> merkles[nextPoT + j] == Join(h, merkles[2 * j], merkles[2 * j + 1])
    {
      if merkles[i].None? {
        merkles[offset] := None;
      } else if merkles[i + 1].None? {
        merkles[offset] := HashMerkleBranches(h, merkles[i].value, merkles[i].value);
      } else {
        merkles[offset] := HashMerkleBranches(h, merkles[i].value, merkles[i + 1].value);
      }
      offset := offset + 1;
      i := i + 2;
    }
  }

  function HashMerkleBranches(h: HashFn, left: Bytes, right: Bytes): Option<Digest>
  {
    Some(h(left + right))
  }

  /** Where row `l` begins. */
  function Start(e: nat, l: nat): nat
    requires l <= e
  {
    if l == 0 then 0 else Start(e, l - 1) + Pow2(e - l + 1)
  }

  lemma {:induction false} StartAt(e: nat, l: nat)
    requires l <= e
    ensures Start(e, l) == 2 * Pow2(e) - 2 * Pow2(e - l)
  {
    if l > 0 {
      StartAt(e, l - 1);
      assert Pow2(e - l + 1) == 2 * Pow2(e - l);
    }
  }

  /** The parent of a cell: `(i >> 1) | P` for the padded size `P`. */
  lemma ParentAt(e: nat, l: nat, j: nat)
    requires l < e && j < Pow2(e - l)
    ensures Start(e, l) + j < 2 * Pow2(e) - 2
    ensures Pow2(e) + (Start(e, l) + j) / 2 == Start(e, l + 1) + j / 2
    ensures (Start(e, l) + j) % 2 == j % 2
  {
    StartAt(e, l);
    StartAt(e, l + 1);
    assert Pow2(e - l) == 2 * Pow2(e - l - 1);
  }

  /** A cell of the next row is joined from the two cells below it. */
  lemma StoreCell(h: HashFn, hs: seq<Digest>, m: seq<Option<Digest>>, e: nat, l: nat, j: nat)
    requires IsStore(h, hs, m, e) && l < e && j < Pow2(e - l - 1)
    ensures Start(e, l) + 2 * j + 1 < |m| && Start(e, l + 1) + j < |m|
    ensures m[Start(e, l + 1) + j] == Join(h, m[Start(e, l) + 2 * j], m[Start(e, l) + 2 * j + 1])
  {
    StartAt(e, l);
    StartAt(e, l + 1);
    assert Pow2(e - l) == 2 * Pow2(e - l - 1);
    var c := Pow2(e) - Pow2(e - l) + j;
    assert m[Pow2(e) + c] == Join(h, m[2 * c], m[2 * c + 1]);
  }

  /** Entry `j` of a row padded with nil. */
  function Padded(r: seq<Digest>, j: nat): Option<Digest>
  {
    if j < |r| then Some(r[j]) else None
  }

  lemma JoinPadded(h: HashFn, r: seq<Digest>, j: nat)
    ensures Join(h, Padded(r, 2 * j), Padded(r, 2 * j + 1)) == Padded(Pair(h, r), j)
  {
  }

  lemma Pow2Next(k: nat)
    ensures Pow2(k + 1) == 2 * Pow2(k)
  {
  }

  lemma StoreBase(h: HashFn, hs: seq<Digest>, m: seq<Option<Digest>>, e: nat, j: nat)
    requires IsStore(h, hs, m, e) && j < Pow2(e)
    ensures j < |m| && m[j] == Padded(hs, j)
  {
  }

  /** The store is the rows of the reference, one after the other, each padded with nil. */
  lemma {:induction false} StoreRow(h: HashFn, hs: seq<Digest>, m: seq<Option<Digest>>, e: nat, l: nat, j: nat)
    requires IsStore(h, hs, m, e) && l <= e && j < Pow2(e - l)
    ensures Start(e, l) + j < |m| && m[Start(e, l) + j] == Padded(Row(h, hs, l), j)
    decreases l
  {
    hide IsStore, Join, Padded, Pow2, Start, Pair;
    if l == 0 {
      StartAt(e, 0);
      StoreBase(h, hs, m, e, j);
    } else {
      Pow2Next(e - l);
      StoreRow(h, hs, m, e, l - 1, 2 * j);
      StoreRow(h, hs, m, e, l - 1, 2 * j + 1);
      StoreCell(h, hs, m, e, l - 1, j);
      JoinPadded(h, Row(h, hs, l - 1), j);
    }
  }

  /** The last cell is the block's Merkle root. */
  lemma StoreRoot(h: HashFn, hs: seq<Digest>, m: seq<Option<Digest>>, e: nat)
    requires |hs| > 0 && IsHeight(|hs|, e) && IsStore(h, hs, m, e)
    ensures m[|m| - 1] == Some(Root(h, hs))
  {
    StartAt(e, e);
    TopRow(h, hs, e, e);
    StoreRow(h, hs, m, e, e, 0);
  }

  // ----- proofs -----

  datatype MerkleProof = MerkleProof(position: nat, hashes: seq<Digest>)

  /** `x | (1 << k)` on 64-bit words, where shifting by 64 or more gives zero. */
  function SetBit(x: nat, k: nat): nat
  {
    if k >= 64 || (x / Pow2(k)) % 2 == 1 then x else x + Pow2(k)
  }

  /** The position of the parent, in the prover and in the checker. */
  function Up(i: nat, height: nat): nat { SetBit(i / 2, height) }

  method CalcTreeHeight(n: nat) returns (e: nat)
    requires n > 0
    ensures IsHeight(n, e)
  {
    e := 0;
    while Pow2(e) < n
      invariant e > 0 ==> Pow2(e - 1) < n
      decreases n - Pow2(e)
    {
      e := e + 1;
    }
  }

  /** The entry of row `l` above transaction `i`. */
  function Ancestor(i: nat, l: nat): nat
  {
    if l == 0 then i else Ancestor(i, l - 1) / 2
  }

  lemma {:induction false} AncestorOnRow(h: HashFn, hs: seq<Digest>, i: nat, l: nat)
    requires i < |hs|
    ensures Ancestor(i, l) < |Row(h, hs, l)|
  {
    if l > 0 {
      AncestorOnRow(h, hs, i, l - 1);
    }
  }

  /** The sibling of row entry `j`, or the entry itself where it has none. */
  function Sibling(r: seq<Digest>, j: nat): Digest
    requires j < |r|
  {
    var s := if j % 2 == 0 then j + 1 else j - 1;
    if s < |r| then r[s] else r[j]
  }

  /** `ps` holds the siblings of the ancestors of transaction `i`, from the bottom row up. */
  ghost predicate Siblings(h: HashFn, hs: seq<Digest>, i: nat, ps: seq<Digest>)
    requires i < |hs|
  {
    forall l :: 0 <= l < |ps| ==>
      Ancestor(i, l) < |Row(h, hs, l)| && ps[l] == Sibling(Row(h, hs, l), Ancestor(i, l))
  }

  lemma {:induction false} Pow2Monotone(a: nat, b: nat)
    requires a < b
    ensures Pow2(a) < Pow2(b)
    decreases b
  {
    if a < b - 1 {
      Pow2Monotone(a, b - 1);
    }
  }

  lemma SameHeight(e: nat, f: nat)
    requires IsHeight(Pow2(e), f)
    ensures e == f
  {
    if e < f {
      if e < f - 1 { Pow2Monotone(e, f - 1); }
    } else if f < e {
      Pow2Monotone(f, e);
    }
  }

  /** From a cell of the store, `Up` is the index of the cell joined from it. */
  lemma UpIsParent(e: nat, l: nat, j: nat)
    requires l < e < 64 && j < Pow2(e - l)
    ensures Up(Start(e, l) + j, e) == Start(e, l + 1) + j / 2
  {
    hide Start, Pow2, SetBit;
    ParentAt(e, l, j);
    SmallSetBit((Start(e, l) + j) / 2, e);
  }

  lemma SmallDiv(x: nat, p: nat)
    requires x < p
    ensures x / p == 0
  {
  }

  lemma SmallSetBit(x: nat, k: nat)
    requires k < 64 && x < Pow2(k)
    ensures SetBit(x, k) == x + Pow2(k)
  {
    hide Pow2;
    SmallDiv(x, Pow2(k));
  }

  /** The sibling of an entry below the root lies in the same padded row. */
  lemma EvenRow(e: nat, l: nat, j: nat)
    requires l < e && j < Pow2(e - l)
    ensures j % 2 == 0 ==> j + 1 < Pow2(e - l)
  {
    assert Pow2(e - l) == 2 * Pow2(e - l - 1);
  }

  /** What the loop of the prover reads at row `l`: the cell of the ancestor and the cell next to it. */
  lemma ProverReads(h: HashFn, hs: seq<Digest>, m: seq<Option<Digest>>, i: nat, e: nat, l: nat)
    requires IsStore(h, hs, m, e) && i < |hs| && IsHeight(|hs|, e) && l < e
    ensures var r, j := Row(h, hs, l), Ancestor(i, l);
            var c := Start(e, l) + j;
            var x := if c % 2 == 0 then c + 1 else c - 1;
            && j < |r| && j < Pow2(e - l) && c % 2 == j % 2
            && 0 <= x < |m| && c < |m| && m[c] == Some(r[j])
            && (if m[x].None? then r[j] else m[x].value) == Sibling(r, j)
  {
    hide IsStore, Start, Row, Ancestor, Pow2;
    var r, j := Row(h, hs, l), Ancestor(i, l);
    AncestorOnRow(h, hs, i, l);
    RowSize(h, hs, e, l);
    ParentAt(e, l, j);
    EvenRow(e, l, j);
    StoreRow(h, hs, m, e, l, j);
    StoreRow(h, hs, m, e, l, if j % 2 == 0 then j + 1 else j - 1);
  }

  /** The prover collects exactly the siblings on the way to the root. */
  method NewMerkleProof(merkleTree: seq<Option<Digest>>, i: nat, ghost h: HashFn, ghost hs: seq<Digest>, ghost e: nat)
    returns (proof: MerkleProof)
    requires IsStore(h, hs, merkleTree, e) && i < |hs| && IsHeight(|hs|, e) && e < 64
    ensures proof.position == i && |proof.hashes| == e && Siblings(h, hs, i, proof.hashes)
  {
    hide IsStore, Start, Row, Up, Pow2, Sibling;
    StoreSize(h, hs, merkleTree, e);
    var treeHeight := CalcTreeHeight((|merkleTree| + 1) / 2);
    SameHeight(e, treeHeight);
    StartAt(e, 0);
    var idx, hashes := i, [];
    for l := 0 to treeHeight
      invariant |hashes| == l && idx == Start(e, l) + Ancestor(i, l)
      invariant Siblings(h, hs, i, hashes)
    {
      ProverReads(h, hs, merkleTree, i, e, l);
      var x := if idx % 2 == 0 then idx + 1 else idx - 1;
      hashes := hashes + [if merkleTree[x].None? then merkleTree[idx].value else merkleTree[x].value];
      UpIsParent(e, l, Ancestor(i, l));
      idx := Up(idx, treeHeight);
    }
    proof := MerkleProof(i, hashes);
  }

  lemma StoreSize(h: HashFn, hs: seq<Digest>, m: seq<Option<Digest>>, e: nat)
    requires IsStore(h, hs, m, e)
    ensures |m| == 2 * Pow2(e) - 1
  {
  }

  /** The string one step of the check hashes. */
  function StepImage(x: Bytes, i: nat, p: Bytes): Bytes
  {
    if i % 2 == 1 then p + x else x + p
  }

  function Fold(h: HashFn, x: Digest, i: nat, ps: seq<Digest>, height: nat): Digest
    decreases ps
  {
    if ps == [] then x else Fold(h, h(StepImage(x, i, ps[0])), Up(i, height), ps[1..], height)
  }

  method Check(h: HashFn, proof: MerkleProof, hash: Digest, expectedRoot: Digest) returns (ok: bool)
    ensures ok <==> Fold(h, hash, proof.position, proof.hashes, |proof.hashes|) == expectedRoot
  {
    var treeHeight := |proof.hashes|;
    var hashIdx, x := proof.position, hash;
    for k := 0 to treeHeight
      invariant Fold(h, hash, proof.position, proof.hashes, treeHeight) ==
                Fold(h, x, hashIdx, proof.hashes[k..], treeHeight)
    {
      assert proof.hashes[k..][0] == proof.hashes[k] && proof.hashes[k..][1..] == proof.hashes[k + 1..];
      x := h(StepImage(x, hashIdx, proof.hashes[k]));
      hashIdx := Up(hashIdx, treeHeight);
    }
    ok := x == expectedRoot;
  }

  /** One step of the check climbs one row. */
  lemma StepClimbs(r: seq<Digest>, j: nat)
    requires j < |r|
    ensures StepImage(r[j], j, Sibling(r, j)) == PairImage(r, j / 2)
  {
  }

  lemma FoldNext(h: HashFn, x: Digest, c: nat, ps: seq<Digest>, l: nat, e: nat)
    requires l < |ps|
    ensures Fold(h, x, c, ps[l..], e) == Fold(h, h(StepImage(x, c, ps[l])), Up(c, e), ps[l + 1..], e)
  {
    hide StepImage, Up;
    assert ps[l..][1..] == ps[l + 1..];
  }

  lemma FoldEnd(h: HashFn, x: Digest, c: nat, ps: seq<Digest>, e: nat)
    ensures Fold(h, x, c, ps[|ps|..], e) == x
  {
  }

  lemma NextRow(h: HashFn, hs: seq<Digest>, i: nat, l: nat)
    requires i < |hs|
    ensures Ancestor(i, l) < |Row(h, hs, l)| && Ancestor(i, l + 1) == Ancestor(i, l) / 2 < |Row(h, hs, l + 1)|
    ensures Row(h, hs, l + 1)[Ancestor(i, l + 1)] == h(PairImage(Row(h, hs, l), Ancestor(i, l) / 2))
  {
    AncestorOnRow(h, hs, i, l);
    AncestorOnRow(h, hs, i, l + 1);
  }

  /** The side of a sibling depends on the parity of the position alone. */
  lemma SameSide(x: Digest, p: Digest, j: nat, c: nat)
    requires j % 2 == c % 2
    ensures StepImage(x, j, p) == StepImage(x, c, p)
  {
  }

  lemma {:induction false} FoldClimbs(h: HashFn, hs: seq<Digest>, i: nat, ps: seq<Digest>, e: nat, l: nat)
    requires i < |hs| && IsHeight(|hs|, e) && e < 64 && |ps| == e && Siblings(h, hs, i, ps) && l <= e
    ensures Ancestor(i, l) < |Row(h, hs, l)|
    ensures Fold(h, Row(h, hs, l)[Ancestor(i, l)], Start(e, l) + Ancestor(i, l), ps[l..], e) == Root(h, hs)
    decreases e - l
  {
    hide Start, Pow2, Up, PairImage, Sibling, IsHeight, Root, Fold, Row, StepImage;
    var r, j := Row(h, hs, l), Ancestor(i, l);
    AncestorOnRow(h, hs, i, l);
    if l == e {
      TopRow(h, hs, e, e);
      FoldEnd(h, r[j], Start(e, e) + j, ps, e);
    } else {
      AncestorOnRow(h, hs, i, l + 1);
      RowSize(h, hs, e, l);
      FoldClimbs(h, hs, i, ps, e, l + 1);
      UpIsParent(e, l, j);
      ParentAt(e, l, j);
      StepClimbs(r, j);
      NextRow(h, hs, i, l);
      SameSide(r[j], ps[l], j, Start(e, l) + j);
      FoldNext(h, r[j], Start(e, l) + j, ps, l, e);
    }
  }

  /** Completeness: a proof built from the store is accepted for its transaction and the block's root. */
  lemma ProofAccepted(h: HashFn, hs: seq<Digest>, i: nat, ps: seq<Digest>, e: nat)
    requires i < |hs| && IsHeight(|hs|, e) && e < 64 && |ps| == e && Siblings(h, hs, i, ps)
    ensures Fold(h, hs[i], i, ps, |ps|) == Root(h, hs)
  {
    FoldClimbs(h, hs, i, ps, e, 0);
    assert ps[0..] == ps;
  }

  // ----- soundness -----

  /** The strings the check hashes. */
  function Images(h: HashFn, x: Digest, i: nat, ps: seq<Digest>, height: nat): seq<Bytes>
    decreases ps
  {
    if ps == [] then []
    else
      var image := StepImage(x, i, ps[0]);
      [image] + Images(h, h(image), Up(i, height), ps[1..], height)
  }

  /** One of `images` collides with a string hashed for the block's own tree. */
  ghost predicate Collides(h: HashFn, hs: seq<Digest>, e: nat, images: seq<Bytes>)
  {
    exists x, l: nat, j: nat :: x in images && l < e && 2 * j < |Row(h, hs, l)| && ClashesAt(h, hs, x, l, j)
  }

  ghost predicate ClashesAt(h: HashFn, hs: seq<Digest>, x: Bytes, l: nat, j: nat)
    requires 2 * j < |Row(h, hs, l)|
  {
    x != PairImage(Row(h, hs, l), j) && h(x) == h(PairImage(Row(h, hs, l), j))
  }

  /** A step that lands on a row without a collision starts on the row below. */
  lemma StepFrom(h: HashFn, r: seq<Digest>, x: Digest, i: nat, p: Digest, j: nat)
    requires 2 * j < |r| && StepImage(x, i, p) == PairImage(r, j)
    ensures x in r
  {
    var k := if 2 * j + 1 < |r| then 2 * j + 1 else 2 * j;
    var image := PairImage(r, j);
    assert image[..32] == r[2 * j] && image[32..] == r[k];
    assert StepImage(x, i, p)[..32] == (if i % 2 == 1 then p else x);
    assert StepImage(x, i, p)[32..] == (if i % 2 == 1 then x else p);
  }

  /** An accepted hash is as many rows below the root as the proof has hashes, or the check collided. */
  lemma {:induction false} ShortSound(h: HashFn, hs: seq<Digest>, e: nat,
                                      x: Digest, i: nat, ps: seq<Digest>, height: nat)
    requires |hs| > 0 && IsHeight(|hs|, e) && |ps| <= e
    requires Fold(h, x, i, ps, height) == Root(h, hs)
    ensures x in Row(h, hs, e - |ps|) || Collides(h, hs, e, Images(h, x, i, ps, height))
    decreases ps
  {
    hide Pow2, Up, PairImage, StepImage, IsHeight, Root;
    if ps == [] {
      TopRow(h, hs, e, e);
    } else {
      var image := StepImage(x, i, ps[0]);
      var l := e - |ps|;
      ShortSound(h, hs, e, h(image), Up(i, height), ps[1..], height);
      if h(image) in Row(h, hs, l + 1) {
        var j :| 0 <= j < |Row(h, hs, l + 1)| && Row(h, hs, l + 1)[j] == h(image);
        if image == PairImage(Row(h, hs, l), j) {
          StepFrom(h, Row(h, hs, l), x, i, ps[0], j);
        } else {
          assert image in Images(h, x, i, ps, height);
          assert ClashesAt(h, hs, image, l, j);
        }
      } else {
        var y, k: nat, j: nat :| y in Images(h, h(image), Up(i, height), ps[1..], height) && k < e &&
                                 2 * j < |Row(h, hs, k)| && ClashesAt(h, hs, y, k, j);
        assert y in Images(h, x, i, ps, height);
      }
    }
  }

  /** The check hashed a string whose digest is one of the block's transaction hashes. */
  ghost predicate Opens(h: HashFn, hs: seq<Digest>, images: seq<Bytes>)
  {
    exists x :: x in images && h(x) in hs
  }

  /** A proof that goes on below the transactions has opened one of them, or the check collided. */
  lemma {:induction false} LongSound(h: HashFn, hs: seq<Digest>, e: nat,
                                     x: Digest, i: nat, ps: seq<Digest>, height: nat)
    requires |hs| > 0 && IsHeight(|hs|, e) && |ps| > e
    requires Fold(h, x, i, ps, height) == Root(h, hs)
    ensures Opens(h, hs, Images(h, x, i, ps, height)) || Collides(h, hs, e, Images(h, x, i, ps, height))
    decreases ps
  {
    hide Pow2, Up, StepImage, IsHeight, Root, Collides;
    var image := StepImage(x, i, ps[0]);
    var rest := Images(h, h(image), Up(i, height), ps[1..], height);
    if |ps| == e + 1 {
      ShortSound(h, hs, e, h(image), Up(i, height), ps[1..], height);
      assert image in Images(h, x, i, ps, height);
    } else {
      LongSound(h, hs, e, h(image), Up(i, height), ps[1..], height);
      if Opens(h, hs, rest) {
        var y :| y in rest && h(y) in hs;
        assert y in Images(h, x, i, ps, height);
      }
    }
    MoreImages(h, hs, e, image, rest);
  }

  lemma MoreImages(h: HashFn, hs: seq<Digest>, e: nat, image: Bytes, rest: seq<Bytes>)
    ensures Collides(h, hs, e, rest) ==> Collides(h, hs, e, [image] + rest)
  {
    if Collides(h, hs, e, rest) {
      var y, k: nat, j: nat :| y in rest && k < e && 2 * j < |Row(h, hs, k)| && ClashesAt(h, hs, y, k, j);
      assert y in [image] + rest;
    }
  }

  /**
   Soundness for any claimed position and any length: unless the check hashed a string that collides
   with one of the block's own, a hash accepted with a proof of `k` hashes is an entry `k` rows below
   the root, or the proof is longer than the tree is high and opens one of the transaction hashes.
   */
  lemma CheckSound(h: HashFn, hs: seq<Digest>, e: nat, x: Digest, i: nat, ps: seq<Digest>, height: nat)
    requires |hs| > 0 && IsHeight(|hs|, e) && Fold(h, x, i, ps, height) == Root(h, hs)
    ensures || Collides(h, hs, e, Images(h, x, i, ps, height))
            || (if |ps| <= e then x in Row(h, hs, e - |ps|) else Opens(h, hs, Images(h, x, i, ps, height)))
  {
    if |ps| <= e {
      ShortSound(h, hs, e, x, i, ps, height);
    } else {
      LongSound(h, hs, e, x, i, ps, height);
    }
  }

  /** With a proof as long as the tree is high, only the block's transactions are accepted. */
  lemma OnlyTransactions(h: HashFn, hs: seq<Digest>, e: nat, x: Digest, i: nat, ps: seq<Digest>)
    requires |hs| > 0 && IsHeight(|hs|, e) && |ps| == e && Fold(h, x, i, ps, |ps|) == Root(h, hs)
    ensures x in hs || Collides(h, hs, e, Images(h, x, i, ps, |ps|))
  {
    CheckSound(h, hs, e, x, i, ps, |ps|);
  }

  lemma {:induction false} SiblingsExist(h: HashFn, hs: seq<Digest>, i: nat, k: nat) returns (ps: seq<Digest>)
    requires i < |hs|
    ensures |ps| == k && Siblings(h, hs, i, ps)
  {
    hide Row, Sibling, Ancestor;
    if k == 0 {
      ps := [];
    } else {
      ps := SiblingsExist(h, hs, i, k - 1);
      AncestorOnRow(h, hs, i, k - 1);
      ps := ps + [Sibling(Row(h, hs, k - 1), Ancestor(i, k - 1))];
    }
  }

  /**
   The length matters, and the checker has no way to know it: every entry of every row, also an
   interior node, is accepted with a proof that is as much shorter as the row is higher. With
   `CheckSound`, proofs of `k` hashes prove exactly the entries `k` rows below the root.
   */
  lemma EveryRowProvable(h: HashFn, hs: seq<Digest>, e: nat, l: nat, j: nat)
    requires |hs| > 0 && IsHeight(|hs|, e) && l <= e < 64 && j < |Row(h, hs, l)|
    ensures exists ps :: |ps| == e - l && Fold(h, Row(h, hs, l)[j], j, ps, |ps|) == Root(h, hs)
  {
    RowSize(h, hs, e, l);
    TopRow(h, hs, e, l);
    var ps := SiblingsExist(h, Row(h, hs, l), j, e - l);
    ProofAccepted(h, Row(h, hs, l), j, ps, e - l);
  }

  /** Small blocks written out: left before right, and the last hash with itself if it is alone. */
  lemma SmallRoots(h: HashFn, a: Digest, b: Digest, c: Digest)
    ensures var x: Bytes, y: Bytes, z: Bytes := a, b, c;
            var xy: Bytes, zz: Bytes := h(x + y), h(z + z);
            && Root(h, [a]) == a && Root(h, [a, b]) == h(x + y) && Root(h, [a, b, c]) == h(xy + zz)
  {
    var x: Bytes, y: Bytes, z: Bytes := a, b, c;
    assert Pair(h, [a, b]) == [h(x + y)];
    var up := Pair(h, [a, b, c]);
    assert up == [h(x + y), h(z + z)];
    var xy: Bytes, zz: Bytes := h(x + y), h(z + z);
    assert Pair(h, up) == [h(xy + zz)];
    assert Root(h, [a, b, c]) == Root(h, up) == Root(h, Pair(h, up));
  }

  /** The steps of a check written out: an even position is hashed before its sibling, an odd one after it. */
  lemma SmallChecks(h: HashFn, x: Digest, p: Digest)
    ensures var a: Bytes, b: Bytes := x, p;
            Fold(h, x, 0, [p], 1) == h(a + b) && Fold(h, x, 1, [p], 1) == h(b + a)
  {
    var ps := [p];
    assert ps[1..] == [];
  }
}
