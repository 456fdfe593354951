/** A commitment binds the answers given under it, up to an explicit break of the hash function. */
module Binding {
  import opened Bits
  import opened Trie
  import opened Canonical

  /** What two tries with one commitment and two answers give away. */
  datatype Evidence =
    | Collision(x: Bytes, y: Bytes)
    | ZeroPreimage(x: Bytes)
    | Confusion(leaf: Trie, inner: Trie)
    | Nothing

  /**
   Two inputs with one digest, an input hashing to the empty leaf's marker, or a leaf and an interior
   node hashing one string.
   */
  predicate Damning(h: HashFn, e: Evidence)
  {
    match e
    case Collision(x, y) => x != y && h(x) == h(y)
    case ZeroPreimage(x) => h(x) == ZERO
    case Confusion(l, i) => l.Leaf? && i.Inner? && Preimage(h, l) == Preimage(h, i)
    case Nothing => false
  }

  /** The break, found by walking both tries along `k` until they differ. */
  function Explain(h: HashFn, p: Trie, q: Trie, k: Bytes, d: nat): Evidence
    requires Reaches(p, k, d) && Reaches(q, k, d)
    decreases p
  {
    if p.Stub? || q.Stub? then Nothing
    else if p.Empty? then (if q.Empty? then Nothing else ZeroPreimage(Preimage(h, q)))
    else if q.Empty? then ZeroPreimage(Preimage(h, p))
    else if Preimage(h, p) != Preimage(h, q) then Collision(Preimage(h, p), Preimage(h, q))
    else
      match (p, q)
      case (Inner(_, _), Inner(_, _)) => Explain(h, p.Child(Bit(k, d)), q.Child(Bit(k, d)), k, d + 1)
      case (Leaf(_, _), Inner(_, _)) => Confusion(p, q)
      case (Inner(_, _), Leaf(_, _)) => Confusion(q, p)
      case _ => Nothing
  }

  /** Equal concatenations with an equally long left or right part have equal such parts. */
  lemma SameHalf(a: Bytes, b: Bytes, c: Bytes, d: Bytes, right: bool)
    requires a + b == c + d && (if right then |b| == |d| else |a| == |c|)
    ensures if right then b == d else a == c
  {
    assert |a| + |b| == |c| + |d|;
    assert a == (a + b)[..|a|] && c == (c + d)[..|c|];
    assert b == (a + b)[|a|..] && d == (c + d)[|c|..];
  }

  /** A node a lookup gets past without meeting a stub has a 32-byte hash. */
  lemma OnPathHash(h: HashFn, t: Trie, k: Bytes, d: nat)
    requires Reaches(t, k, d) && Lookup(t, k, d) != Hidden
    ensures |HashOf(h, t)| == 32
  {
  }

  /**
   The two lookups stop at leaves that divide their bytes differently between key and value, and one
   of the two has the key that was asked for.
   */
  predicate Shifted(p: Trie, q: Trie, k: Bytes, d: nat)
    requires Reaches(p, k, d) && Reaches(q, k, d)
  {
    var e, f := End(p, k, d), End(q, k, d);
    e.Leaf? && f.Leaf? && |e.key| != |f.key| && (e.key == k || f.key == k)
  }

  lemma SameLeaf(h: HashFn, p: Trie, q: Trie)
    requires p.Leaf? && q.Leaf? && |p.key| == |q.key| && Preimage(h, p) == Preimage(h, q)
    ensures p == q
  {
    SameHalf(p.key, p.value, q.key, q.value, false);
    assert |p.key| + |p.value| == |p.key + p.value| == |q.key + q.value|;
    SameHalf(p.key, p.value, q.key, q.value, true);
  }

  /** A lookup is decided by the node at which the descent stops. */
  lemma {:induction false} LookupEnd(t: Trie, k: Bytes, d: nat)
    requires Reaches(t, k, d)
    ensures Lookup(t, k, d) == Lookup(End(t, k, d), k, d)
    decreases t
  {
    if t.Inner? {
      LookupEnd(t.Child(Bit(k, d)), k, d + 1);
    }
  }

  /** Two leaves, or a leaf and an empty leaf or interior node: no further to walk. */
  lemma EndsBound(h: HashFn, p: Trie, q: Trie, k: Bytes, d: nat)
    requires Reaches(p, k, d) && Reaches(q, k, d) && HashOf(h, p) == HashOf(h, q) && !(p.Inner? && q.Inner?)
    requires Lookup(p, k, d) != Hidden && Lookup(q, k, d) != Hidden
    ensures Damning(h, Explain(h, p, q, k, d)) || (Lookup(p, k, d) == Lookup(q, k, d) <==> !Shifted(p, q, k, d))
  {
    if p.Leaf? && q.Leaf? && Preimage(h, p) == Preimage(h, q) && |p.key| == |q.key| {
      SameLeaf(h, p, q);
    }
  }

  /** Below two interior nodes that hash one string, the children on the path have one hash. */
  lemma SameChild(h: HashFn, p: Trie, q: Trie, k: Bytes, d: nat)
    requires p.Inner? && q.Inner? && Reaches(p, k, d) && Reaches(q, k, d) && Preimage(h, p) == Preimage(h, q)
    requires Lookup(p, k, d) != Hidden && Lookup(q, k, d) != Hidden
    ensures HashOf(h, p.Child(Bit(k, d))) == HashOf(h, q.Child(Bit(k, d)))
  {
    var b := Bit(k, d);
    OnPathHash(h, p.Child(b), k, d + 1);
    OnPathHash(h, q.Child(b), k, d + 1);
    SameHalf(HashOf(h, p.left), HashOf(h, p.right), HashOf(h, q.left), HashOf(h, q.right), b);
  }

  /**
   If two tries, full or partial, have the same hash and both answer for `k`, then the walk exhibits a
   break, or the answers are equal if and only if the bytes of the last leaf were not shifted between
   key and value. Siblings off the path may be anything.
   */
  lemma {:induction false} AnswersBound(h: HashFn, p: Trie, q: Trie, k: Bytes, d: nat)
    requires Reaches(p, k, d) && Reaches(q, k, d) && HashOf(h, p) == HashOf(h, q)
    requires Lookup(p, k, d) != Hidden && Lookup(q, k, d) != Hidden
    ensures Damning(h, Explain(h, p, q, k, d)) || (Lookup(p, k, d) == Lookup(q, k, d) <==> !Shifted(p, q, k, d))
    decreases p
  {
    hide HashOf, Damning;
    if p.Inner? && q.Inner? {
      if Preimage(h, p) == Preimage(h, q) {
        SameChild(h, p, q, k, d);
        AnswersBound(h, p.Child(Bit(k, d)), q.Child(Bit(k, d)), k, d + 1);
      } else {
        InnerCollision(h, p, q, k, d);
      }
    } else {
      EndsBound(h, p, q, k, d);
    }
  }

  lemma InnerCollision(h: HashFn, p: Trie, q: Trie, k: Bytes, d: nat)
    requires p.Inner? && q.Inner? && Reaches(p, k, d) && Reaches(q, k, d)
    requires HashOf(h, p) == HashOf(h, q) && Preimage(h, p) != Preimage(h, q)
    ensures Damning(h, Explain(h, p, q, k, d))
  {
  }

  /** Two tries whose leaves on the path have keys of one length, as all of a dictionary have, are bound outright. */
  lemma OneLengthBound(h: HashFn, p: Trie, q: Trie, k: Bytes, d: nat)
    requires Reaches(p, k, d) && Reaches(q, k, d) && HashOf(h, p) == HashOf(h, q)
    requires Lookup(p, k, d) != Hidden && Lookup(q, k, d) != Hidden
    requires End(p, k, d).Leaf? && End(q, k, d).Leaf? ==> |End(p, k, d).key| == |End(q, k, d).key|
    ensures Lookup(p, k, d) == Lookup(q, k, d) || Damning(h, Explain(h, p, q, k, d))
  {
    AnswersBound(h, p, q, k, d);
  }

  /** The tree `p` stops for `k` at a leaf whose key is not `n` bytes long, although `k` is in the map. */
  predicate Misdivided(p: Trie, m: Dict, k: Bytes, n: nat)
    requires Reaches(p, k, 0)
  {
    End(p, k, 0).Leaf? && |End(p, k, 0).key| != n && k in m
  }

  /**
   Any tree under the commitment of a map: unless it exhibits a break, it answers as the map does if
   and only if it does not stop at a misdivided leaf. What it reports as present is present, with
   that value.
   */
  lemma ProofBound(h: HashFn, p: Trie, m: Dict, k: Bytes, n: nat)
    requires Under(m, [], n) && n > 0 && |k| == n && Reaches(p, k, 0)
    requires HashOf(h, p) == HashOf(h, RootOf(m, n)) && Lookup(p, k, 0) != Hidden
    ensures Reaches(RootOf(m, n), k, 0)
    ensures Damning(h, Explain(h, p, RootOf(m, n), k, 0)) ||
            (Lookup(p, k, 0) == (if k in m then Present(m[k]) else Absent) <==> !Misdivided(p, m, k, n))
    ensures Damning(h, Explain(h, p, RootOf(m, n), k, 0)) ||
            (Lookup(p, k, 0).Present? ==> k in m && Lookup(p, k, 0) == Present(m[k]))
  {
    hide HashOf, Damning, Explain, RootOf;
    LookupRootOf(m, k, n);
    EndSized(RootOf(m, n), k, 0);
    LookupEnd(RootOf(m, n), k, 0);
    LookupEnd(p, k, 0);
    AnswersBound(h, p, RootOf(m, n), k, 0);
  }

  lemma {:induction false} EndSized(t: Trie, k: Bytes, d: nat)
    requires Routes(t, k, d)
    ensures Reaches(t, k, d) && (End(t, k, d).Leaf? ==> |End(t, k, d).key| == |k|)
    decreases t
  {
    if t.Inner? {
      EndSized(t.Child(Bit(k, d)), k, d + 1);
    }
  }

  /** The trie with the last byte of the key of the leaf at the end of the path moved to its value. */
  function Redivide(t: Trie, k: Bytes, d: nat): Trie
    requires Reaches(t, k, d) && Lookup(t, k, d).Present? && |k| > 0
    decreases t
  {
    if t.Leaf? then Leaf(k[..|k| - 1], k[|k| - 1..] + t.value)
    else if Bit(k, d) then Inner(t.left, Redivide(t.right, k, d + 1))
    else Inner(Redivide(t.left, k, d + 1), t.right)
  }

  /**
   Nothing separates key from value in what a leaf hashes. So every key that is present, in any trie
   and under every hash function, is absent in another trie with the same hash, without any break.
   */
  lemma {:induction false} RedividedAbsent(h: HashFn, t: Trie, k: Bytes, d: nat)
    requires Reaches(t, k, d) && Lookup(t, k, d).Present? && |k| > 0
    ensures var r := Redivide(t, k, d);
            && Reaches(r, k, d) && HashOf(h, r) == HashOf(h, t) && Lookup(r, k, d) == Absent
            && Shifted(t, r, k, d) && Explain(h, t, r, k, d) == Nothing
    decreases t
  {
    var r := Redivide(t, k, d);
    if t.Leaf? {
      RedividedLeaf(h, t.value, k, d);
    } else {
      hide Bit, HashOf;
      SameHashInner(h, t, r, k, d);
      var b := Bit(k, d);
      RedividedAbsent(h, t.Child(b), k, d + 1);
      assert r.Child(b) == Redivide(t.Child(b), k, d + 1);
    }
  }

  lemma RedividedLeaf(h: HashFn, v: Bytes, k: Bytes, d: nat)
    requires |k| > 0
    ensures var t, r := Leaf(k, v), Leaf(k[..|k| - 1], k[|k| - 1..] + v);
            && HashOf(h, r) == HashOf(h, t) && Lookup(r, k, d) == Absent
            && Shifted(t, r, k, d) && Explain(h, t, r, k, d) == Nothing
  {
    SameBytes(k, v);
    var t, r := Leaf(k, v), Leaf(k[..|k| - 1], k[|k| - 1..] + v);
    assert Preimage(h, r) == Preimage(h, t);
  }

  lemma SameBytes(k: Bytes, v: Bytes)
    requires |k| > 0
    ensures k[..|k| - 1] + (k[|k| - 1..] + v) == k + v
  {
  }

  /** Replacing the child on the path by one with the same hash changes neither hash nor preimage. */
  lemma SameHashInner(h: HashFn, t: Trie, r: Trie, k: Bytes, d: nat)
    requires t.Inner? && r.Inner? && d < 8 * |k| && t.Child(!Bit(k, d)) == r.Child(!Bit(k, d))
    ensures HashOf(h, t.Child(Bit(k, d))) == HashOf(h, r.Child(Bit(k, d))) ==>
              Preimage(h, r) == Preimage(h, t) && HashOf(h, r) == HashOf(h, t)
  {
  }

  /** Two such tries written out: the same hash under every hash function and different answers for the key 0x00. */
  lemma KeyLengthMatters(h: HashFn)
    ensures var p, q := Inner(Leaf([0], [0, 1]), Empty), Inner(Leaf([0, 0], [1]), Empty);
            && Reaches(p, [0], 0) && Reaches(q, [0], 0) && HashOf(h, p) == HashOf(h, q)
            && Lookup(p, [0], 0) == Present([0, 1]) && Lookup(q, [0], 0) == Absent
            && Explain(h, p, q, [0], 0) == Nothing
  {
    var k: Bytes := [0];
    var x, y := Leaf([0], [0, 1]), Leaf([0, 0], [1]);
    assert !Bit(k, 0);
    var kx: Bytes, ky: Bytes := [0] + [0, 1], [0, 0] + [1];
    assert kx == ky;
    assert Preimage(h, x) == Preimage(h, y);
    assert Explain(h, x, y, k, 1) == Nothing;
  }
}
