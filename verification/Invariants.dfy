/**
 What the bookkeeping of a full trie promises: a hash that is not stale is right, staleness and
 change are closed upward, and an unchanged node roots what was there at the last reset.
 */
module Invariants {
  import opened Bits
  import opened Trie
  import opened Tree
  import Canonical

  // ----- cached hashes -----

  /** Every node that is not stale caches the hash recomputed from scratch, and the parent of a stale node is stale. */
  ghost predicate CacheOk(h: HashFn, t: Tree)
  {
    match t
    case EmptyLeaf => true
    case DictLeaf(_, _, m) => m.stale || m.cache == HashOf(h, t.Shape())
    case Interior(l, r, m) =>
      && (m.stale || m.cache == HashOf(h, t.Shape()))
      && (l.Stale() || r.Stale() ==> m.stale)
      && CacheOk(h, l) && CacheOk(h, r)
  }

  /** All stale nodes, wherever they are. */
  ghost function StaleNodes(t: Tree): nat
  {
    match t
    case EmptyLeaf => 0
    case DictLeaf(_, _, m) => if m.stale then 1 else 0
    case Interior(l, r, m) => (if m.stale then 1 else 0) + StaleNodes(l) + StaleNodes(r)
  }

  lemma {:induction false} SplitCache(h: HashFn, a: Tree, b: Tree, d: nat)
    requires a.DictLeaf? && b.DictLeaf? && a.key != b.key && Agree(a.key, b.key, d)
    requires CacheOk(h, a) && CacheOk(h, b)
    ensures CacheOk(h, Split(a, b, d))
    decreases 8 * |a.key| - d
  {
    if d == 8 * |a.key| {
      AgreeOnAll(a.key, b.key);
    } else if Bit(a.key, d) == Bit(b.key, d) {
      SplitCache(h, a, b, d + 1);
    }
  }

  lemma {:induction false} InsertCache(h: HashFn, t: Tree, k: Bytes, v: Bytes, d: nat)
    requires Routes(t.Shape(), k, d) && CacheOk(h, t)
    ensures CacheOk(h, Insert(t, k, v, d))
    decreases t
  {
    match t
    case EmptyLeaf =>
    case DictLeaf(key, _, _) =>
      if key != k {
        SplitCache(h, MarkChanged(t), NewLeaf(k, v), d);
      }
    case Interior(_, _, _) =>
      InsertCache(h, t.Child(Bit(k, d)), k, v, d + 1);
  }

  lemma {:induction false} DeleteCache(h: HashFn, t: Tree, k: Bytes, d: nat, isRoot: bool)
    requires Reaches(t.Shape(), k, d) && CacheOk(h, t)
    ensures CacheOk(h, Delete(t, k, d, isRoot))
    decreases t
  {
    if t.Interior? {
      DeleteCache(h, t.Child(Bit(k, d)), k, d + 1, false);
    }
  }

  /** With staleness closed upward, a node that is not stale has nothing stale below it. */
  lemma {:induction false} FreshBelow(h: HashFn, t: Tree)
    requires CacheOk(h, t) && !t.Stale()
    ensures StaleNodes(t) == 0
  {
    if t.Interior? {
      FreshBelow(h, t.left);
      FreshBelow(h, t.right);
    }
  }

  /** Rehashing answers with the hash from scratch, leaves nothing stale and touches nothing else. */
  lemma {:induction false} RehashOk(h: HashFn, t: Tree)
    requires CacheOk(h, t)
    ensures Rehash(h, t).Shape() == t.Shape() && Rehash(h, t).Changed() == t.Changed()
    ensures Cached(Rehash(h, t)) == HashOf(h, t.Shape())
    ensures CacheOk(h, Rehash(h, t)) && StaleNodes(Rehash(h, t)) == 0
    ensures !Rehash(h, t).Stale()
  {
    if !t.Stale() {
      FreshBelow(h, t);
    } else if t.Interior? {
      RehashOk(h, t.left);
      RehashOk(h, t.right);
    }
  }

  /** The count that stops at nodes that are not stale misses none. */
  lemma {:induction false} RecalculationsOk(h: HashFn, t: Tree)
    requires CacheOk(h, t)
    ensures Recalculations(t) == StaleNodes(t)
  {
    if !t.Stale() {
      FreshBelow(h, t);
    } else if t.Interior? {
      RecalculationsOk(h, t.left);
      RecalculationsOk(h, t.right);
    }
  }

  lemma {:induction false} UnchangeCache(h: HashFn, t: Tree)
    requires CacheOk(h, t)
    ensures CacheOk(h, Unchange(t)) && Unchange(t).Shape() == t.Shape() && Unchange(t).Stale() == t.Stale()
    ensures StaleNodes(Unchange(t)) == StaleNodes(t)
  {
    if t.Interior? {
      UnchangeCache(h, t.left);
      UnchangeCache(h, t.right);
    }
  }

  /** A deep copy of a trie with nothing stale is right; the copy takes the cached bytes on trust. */
  lemma {:induction false} CopyOk(h: HashFn, t: Tree)
    requires CacheOk(h, t) && StaleNodes(t) == 0
    ensures CacheOk(h, Copy(t)) && Copy(t).Shape() == t.Shape() && !Copy(t).Stale()
  {
    if t.Interior? {
      CopyOk(h, t.left);
      CopyOk(h, t.right);
    }
  }

  lemma {:induction false} CopyShape(t: Tree)
    ensures Copy(t).Shape() == t.Shape() && StaleNodes(Copy(t)) == 0 && !Copy(t).Stale()
  {
    if t.Interior? {
      CopyShape(t.left);
      CopyShape(t.right);
    }
  }

  /** A trie that was built but never hashed, as one read back from disk, has a copy that answers with zeros. */
  lemma CopyBeforeHashing(h: HashFn, l: Tree, r: Tree)
    ensures Cached(Copy(NewInterior(l, r))) == ZERO && !Copy(NewInterior(l, r)).Stale()
    ensures h(ZERO + ZERO) != ZERO ==> CacheOk(h, NEW) && !CacheOk(h, Copy(NEW))
  {
    assert Copy(NEW) == Interior(EmptyLeaf, EmptyLeaf, Mark(true, false, ZERO));
    assert HashOf(h, Copy(NEW).Shape()) == h(ZERO + ZERO);
  }

  // ----- change flags -----

  /**
   The flags of `t` against `o`, the node that was at the same position at the last reset (Nil if
   there was none): an unchanged leaf or interior node is what was there, and the parent of a
   changed node is changed.
   */
  ghost predicate FlagsOk(t: Tree, o: Trie)
  {
    match t
    case EmptyLeaf => true
    case DictLeaf(k, v, m) => m.changed || o == Leaf(k, v)
    case Interior(l, r, m) =>
      && (m.changed || o == t.Shape())
      && (l.Changed() || r.Changed() ==> m.changed)
      && FlagsOk(l, o.Child(false)) && FlagsOk(r, o.Child(true))
  }

  ghost predicate AllUnchanged(t: Tree)
  {
    !t.Changed() && (t.Interior? ==> AllUnchanged(t.left) && AllUnchanged(t.right))
  }

  lemma {:induction false} SplitFlags(a: Tree, b: Tree, d: nat, o: Trie)
    requires a.DictLeaf? && b.DictLeaf? && a.key != b.key && Agree(a.key, b.key, d)
    requires a.Changed() && b.Changed()
    ensures FlagsOk(Split(a, b, d), o)
    decreases 8 * |a.key| - d
  {
    if d == 8 * |a.key| {
      AgreeOnAll(a.key, b.key);
    } else if Bit(a.key, d) == Bit(b.key, d) {
      SplitFlags(a, b, d + 1, o.Child(Bit(a.key, d)));
    }
  }

  lemma {:induction false} InsertFlags(t: Tree, k: Bytes, v: Bytes, d: nat, o: Trie)
    requires Routes(t.Shape(), k, d) && FlagsOk(t, o)
    ensures FlagsOk(Insert(t, k, v, d), o)
    decreases t
  {
    match t
    case EmptyLeaf =>
    case DictLeaf(key, _, _) =>
      if key != k {
        SplitFlags(MarkChanged(t), NewLeaf(k, v), d, o);
      }
    case Interior(_, _, _) =>
      var b := Bit(k, d);
      InsertFlags(t.Child(b), k, v, d + 1, o.Child(b));
  }

  /**
   A leaf pushed up by a deletion changes position. It is always marked, because a node that holds
   at least two keys loses its last but one only next to the leaf that is then marked.
   */
  lemma {:induction false} DeleteFlags(t: Tree, k: Bytes, d: nat, isRoot: bool, o: Trie)
    requires Reaches(t.Shape(), k, d) && FlagsOk(t, o)
    requires if isRoot then t.Interior? && Canonical.Bushy(t.left.Shape()) && Canonical.Bushy(t.right.Shape())
             else Canonical.Bushy(t.Shape())
    ensures FlagsOk(Delete(t, k, d, isRoot), o)
    ensures t.Interior? && !Delete(t, k, d, isRoot).EmptyLeaf? ==> Delete(t, k, d, isRoot).Changed()
    ensures t.Interior? ==> !Delete(t, k, d, isRoot).EmptyLeaf?
    decreases t
  {
    if t.Interior? {
      var b := Bit(k, d);
      DeleteFlags(t.Child(b), k, d + 1, false, o.Child(b));
    }
  }

  lemma {:induction false} ClosedBelow(t: Tree, o: Trie)
    requires FlagsOk(t, o) && !t.Changed()
    ensures AllUnchanged(t)
  {
    if t.Interior? {
      ClosedBelow(t.left, o.Child(false));
      ClosedBelow(t.right, o.Child(true));
    }
  }

  /** Clearing the flags while skipping unchanged children still clears all of them. */
  lemma {:induction false} UnchangeAll(t: Tree, o: Trie)
    requires FlagsOk(t, o)
    ensures AllUnchanged(Unchange(t))
  {
    if t.Interior? {
      if t.left.Changed() { UnchangeAll(t.left, o.Child(false)); } else { ClosedBelow(t.left, o.Child(false)); }
      if t.right.Changed() { UnchangeAll(t.right, o.Child(true)); } else { ClosedBelow(t.right, o.Child(true)); }
    }
  }

  lemma {:induction false} UnchangedIsBase(t: Tree)
    requires AllUnchanged(t)
    ensures FlagsOk(t, t.Shape())
  {
    if t.Interior? {
      UnchangedIsBase(t.left);
      UnchangedIsBase(t.right);
    }
  }

  /** What soundness of the flags says about any one position, the path `p` below the root. */
  lemma {:induction false} FlagsAt(t: Tree, o: Trie, p: seq<bool>)
    requires FlagsOk(t, o) && HasNode(t, p)
    ensures !At(t, p).Changed() && !At(t, p).EmptyLeaf? ==> ShapeAt(o, p) == At(t, p).Shape()
    ensures At(t, p).Changed() ==> forall i :: 0 <= i <= |p| ==> HasNode(t, p[..i]) && At(t, p[..i]).Changed()
  {
    if |p| > 0 {
      FlagsAt(t.Child(p[0]), o.Child(p[0]), p[1..]);
      if At(t, p).Changed() {
        forall i | 0 <= i <= |p|
          ensures HasNode(t, p[..i]) && At(t, p[..i]).Changed()
        {
          if i > 0 {
            assert p[..i][1..] == p[1..][..i - 1];
          } else {
            assert p[1..][..0] == [];
          }
        }
      }
    } else {
      assert forall i :: 0 <= i <= |p| ==> p[..i] == p;
    }
  }

  /** `t` has a node at path `p`. */
  ghost predicate HasNode(t: Tree, p: seq<bool>)
    decreases p
  {
    |p| > 0 ==> t.Interior? && HasNode(t.Child(p[0]), p[1..])
  }

  ghost function At(t: Tree, p: seq<bool>): Tree
    requires HasNode(t, p)
    decreases p
  {
    if p == [] then t else At(t.Child(p[0]), p[1..])
  }

  ghost function ShapeAt(o: Trie, p: seq<bool>): Trie
    decreases p
  {
    if p == [] then o else ShapeAt(o.Child(p[0]), p[1..])
  }

  lemma {:induction false} RehashFlags(h: HashFn, t: Tree, o: Trie)
    requires CacheOk(h, t) && FlagsOk(t, o)
    ensures FlagsOk(Rehash(h, t), o)
  {
    RehashOk(h, t);
    if t.Stale() && t.Interior? {
      RehashOk(h, t.left);
      RehashOk(h, t.right);
      RehashFlags(h, t.left, o.Child(false));
      RehashFlags(h, t.right, o.Child(true));
    }
  }

  /** A fresh copy counts as changed everywhere, so its flags hold against any past. */
  lemma {:induction false} CopyFlags(t: Tree, o: Trie)
    ensures FlagsOk(Copy(t), o)
  {
    if t.Interior? {
      CopyFlags(t.left, o.Child(false));
      CopyFlags(t.right, o.Child(true));
    }
  }

  // ----- hashing as a side effect -----

  /** The node without its stale flags and hash buffers: what hashing cannot change. */
  ghost function Lasting(t: Tree): Tree
  {
    match t
    case EmptyLeaf => t
    case DictLeaf(k, v, m) => DictLeaf(k, v, Mark(m.changed, true, ZERO))
    case Interior(l, r, m) => Interior(Lasting(l), Lasting(r), Mark(m.changed, true, ZERO))
  }

  /** `u` is `t` after some of its nodes answered `GetHash`. */
  ghost predicate Hashed(h: HashFn, t: Tree, u: Tree)
  {
    Lasting(u) == Lasting(t) && CacheOk(h, u) && (u.Stale() ==> t.Stale())
  }

  lemma {:induction false} LastingSame(t: Tree, u: Tree, o: Trie)
    requires Lasting(u) == Lasting(t)
    ensures u.Shape() == t.Shape() && u.Changed() == t.Changed() && (FlagsOk(t, o) ==> FlagsOk(u, o))
    ensures t.Interior? ==> Lasting(u.left) == Lasting(t.left) && Lasting(u.right) == Lasting(t.right)
  {
    if t.Interior? {
      LastingSame(t.left, u.left, o.Child(false));
      LastingSame(t.right, u.right, o.Child(true));
    }
  }

  lemma {:induction false} RehashHashed(h: HashFn, t: Tree)
    requires CacheOk(h, t)
    ensures Hashed(h, t, Rehash(h, t))
  {
    RehashOk(h, t);
    if t.Stale() && t.Interior? {
      RehashHashed(h, t.left);
      RehashHashed(h, t.right);
    }
  }
}
