/**
 The Merkle prefix trie as a value: the node kinds of package mpt, the authenticated hash of a
 node, and the dictionary operations on a full trie.
 */
module Trie {
  import opened Bits

  /** A hash function with 32-byte digests. Nothing else is ever assumed about it. */
  type Digest = d: Bytes | |d| == 32 witness seq(32, _ => 0)
  type HashFn = Bytes -> Digest

  /**
   A node of any of the three views. `Nil` is Go's nil child, which occurs only in an update;
   `Stub` occurs in proofs and deltas; a full trie is made of the other three.
   */
  datatype Trie =
    | Nil
    | Stub(hash: Bytes)
    | Empty
    | Leaf(key: Bytes, value: Bytes)
    | Inner(left: Trie, right: Trie)
  {
    predicate IsLeaf() { Leaf? || Empty? }

    /** The child on side `b`; a node without children has Nil children. */
    function Child(b: bool): Trie {
      if !Inner? then Nil else if b then right else left
    }

    function Height(): nat {
      if Inner? then 1 + (if left.Height() > right.Height() then left.Height() else right.Height()) else 0
    }
  }

  /** The marker hash of an empty leaf: 32 zero bytes. */
  const ZERO: Digest :=
    [0, 0, 0, 0, 0, 0, 0, 0, 0, 0, 0, 0, 0, 0, 0, 0, 0, 0, 0, 0, 0, 0, 0, 0, 0, 0, 0, 0, 0, 0, 0, 0]

  /** The string a leaf or an interior node hashes. */
  function Preimage(h: HashFn, t: Trie): Bytes
    requires t.Leaf? || t.Inner?
    decreases t, 0
  {
    if t.Leaf? then t.key + t.value else HashOf(h, t.left) + HashOf(h, t.right)
  }

  /** The authenticated hash recomputed from scratch. A nil child contributes no bytes. */
  function HashOf(h: HashFn, t: Trie): Bytes
    decreases t, 1
  {
    match t
    case Nil => []
    case Stub(d) => d
    case Empty => ZERO
    case Leaf(_, _) => h(Preimage(h, t))
    case Inner(_, _) => h(Preimage(h, t))
  }

  /** No nil child and no bit index past the key on the descent along `k`. */
  predicate Reaches(t: Trie, k: Bytes, d: nat)
  {
    match t
    case Nil => false
    case Inner(_, _) => d < 8 * |k| && Reaches(t.Child(Bit(k, d)), k, d + 1)
    case _ => true
  }

  /** The node at which the descent along `k` stops. */
  function End(t: Trie, k: Bytes, d: nat): (e: Trie)
    requires Reaches(t, k, d)
    ensures !e.Inner? && !e.Nil?
  {
    if t.Inner? then End(t.Child(Bit(k, d)), k, d + 1) else t
  }

  /** As `Reaches`, and a leaf met along `k` has a key of the same length that took the same turns. */
  ghost predicate Routes(t: Trie, k: Bytes, d: nat)
  {
    match t
    case Nil => false
    case Inner(_, _) => d < 8 * |k| && Routes(t.Child(Bit(k, d)), k, d + 1)
    case Leaf(key, _) => Agree(key, k, d)
    case _ => true
  }

  /** What a lookup reports: an answer, or that a stub hides it. */
  datatype Answer = Hidden | Absent | Present(value: Bytes)

  function Lookup(t: Trie, k: Bytes, d: nat): Answer
    requires Reaches(t, k, d)
    decreases t
  {
    match t
    case Stub(_) => Hidden
    case Empty => Absent
    case Leaf(key, value) => if key == k then Present(value) else Absent
    case Inner(_, _) => Lookup(t.Child(Bit(k, d)), k, d + 1)
  }
}
