/**
 What is not done: positions a run does not touch are not sent, positions off the paths of the keys are
 not shown, and an operation makes no more nodes stale than lie on the path of its key.
 */
module Economy {
  import opened Bits
  import opened Trie
  import T = Tree
  import opened Canonical
  import opened Invariants
  import opened Machine
  import opened Partial
  import opened Delta

  /** The key takes the turns `p` from bit `d` on. */
  ghost predicate Passes(k: Bytes, p: Path, d: nat)
  {
    d + |p| <= 8 * |k| && forall i :: 0 <= i < |p| ==> Bit(k, d + i) == p[i]
  }

  lemma PassesTail(k: Bytes, p: Path, d: nat)
    requires |p| > 0 && d < 8 * |k| && Bit(k, d) == p[0]
    ensures Passes(k, p, d) <==> Passes(k, p[1..], d + 1)
  {
    if Passes(k, p[1..], d + 1) {
      forall i | 0 <= i < |p|
        ensures Bit(k, d + i) == p[i]
      {
        if i > 0 {
          assert Bit(k, d + 1 + (i - 1)) == p[1..][i - 1];
        }
      }
    }
    if Passes(k, p, d) {
      forall i | 0 <= i < |p[1..]|
        ensures Bit(k, d + 1 + i) == p[1..][i]
      {
        assert Bit(k, d + (i + 1)) == p[i + 1];
      }
    }
  }

  // ----- deltas -----

  /** There is a node at `p`, and it does not count as changed. */
  ghost predicate Calm(t: T.Tree, p: Path)
  {
    HasNode(t, p) && !At(t, p).Changed()
  }

  /** A key inserted past other positions leaves the node at `p` alone. */
  lemma {:induction false} InsertPast(t: T.Tree, k: Bytes, v: Bytes, d: nat, p: Path)
    requires Routes(t.Shape(), k, d) && HasNode(t, p) && d <= 8 * |k| && !Passes(k, p, d)
    ensures HasNode(T.Insert(t, k, v, d), p) && At(T.Insert(t, k, v, d), p) == At(t, p)
    decreases t
  {
    if |p| > 0 && Bit(k, d) == p[0] {
      PassesTail(k, p, d);
      InsertPast(t.Child(p[0]), k, v, d + 1, p[1..]);
    }
  }

  /** A key deleted past other positions and their parents leaves the node at `p` alone. */
  lemma {:induction false} DeletePast(t: T.Tree, k: Bytes, d: nat, isRoot: bool, p: Path)
    requires Reaches(t.Shape(), k, d) && |p| > 0 && HasNode(t, p) && !Passes(k, p[..|p| - 1], d)
    ensures HasNode(T.Delete(t, k, d, isRoot), p) && At(T.Delete(t, k, d, isRoot), p) == At(t, p)
    ensures T.Delete(t, k, d, isRoot).Interior?
    decreases t
  {
    assert |p| > 1;
    if Bit(k, d) == p[0] {
      PassesTail(k, p[..|p| - 1], d);
      assert p[..|p| - 1][1..] == p[1..][..|p[1..]| - 1];
      DeletePast(t.Child(p[0]), k, d + 1, false, p[1..]);
    }
  }

  lemma {:induction false} LastingCalm(t: T.Tree, u: T.Tree, p: Path)
    requires Lasting(t) == Lasting(u) && Calm(t, p)
    ensures Calm(u, p)
    decreases p
  {
    LastingSame(t, u, Nil);
    if |p| > 0 {
      LastingCalm(t.Child(p[0]), u.Child(p[0]), p[1..]);
    }
  }

  lemma {:induction false} UnchangedCalm(t: T.Tree, p: Path)
    requires AllUnchanged(t) && ShapeAt(t.Shape(), p) != Nil
    ensures Calm(t, p)
    decreases p
  {
    if |p| > 0 {
      NilAt(p[1..]);
      UnchangedCalm(t.Child(p[0]), p[1..]);
    }
  }

  lemma {:induction false} NilAt(p: Path)
    ensures ShapeAt(Nil, p) == Nil
  {
    if |p| > 0 {
      NilAt(p[1..]);
    }
  }

  /** No operation puts a key at `p` or below, or drops one at the parent of `p` or below. */
  ghost predicate Avoids(op: Op, p: Path)
    requires |p| > 0
  {
    match op
    case Put(k, _) => !Passes(k, p, 0)
    case Drop(k) => !Passes(k, p[..|p| - 1], 0)
    case _ => true
  }

  lemma StepCalm(h: HashFn, n: nat, s: State, op: Op, p: Path)
    requires Inv(h, n, s) && Fits(op, n) && !op.Reset? && |p| > 0 && Avoids(op, p) && Calm(s.tree, p)
    ensures Calm(Step(h, n, s, op).tree, p)
  {
    match op
    case Put(k, v) =>
      PutStep(h, n, s, k, v);
      InsertPast(s.tree, k, v, 0, p);
    case Drop(k) =>
      DropStep(h, n, s, k);
      DeletePast(s.tree, k, 0, true, p);
    case Commit =>
      RehashHashed(h, s.tree);
      LastingCalm(s.tree, T.Rehash(h, s.tree), p);
  }

  lemma {:induction false} RunCalm(h: HashFn, n: nat, s: State, ops: seq<Op>, p: Path)
    requires Inv(h, n, s) && AllFit(ops, n) && NoReset(ops) && |p| > 0 && Calm(s.tree, p)
    requires forall i :: 0 <= i < |ops| ==> Avoids(ops[i], p)
    ensures Calm(Run(h, n, s, ops).tree, p)
    decreases ops
  {
    hide Inv, Calm, Avoids;
    if ops != [] {
      StepInv(h, n, s, ops[0]);
      StepCalm(h, n, s, ops[0], p);
      RunCalm(h, n, Step(h, n, s, ops[0]), ops[1..], p);
    }
  }

  /** A calm node is a stub in a delta, or below one. */
  ghost predicate CutOff(u: Trie, p: Path, from: nat)
  {
    exists i :: from <= i <= |p| && ShapeAt(u, p[..i]).Stub?
  }

  lemma {:induction false} CalmCut(h: HashFn, t: T.Tree, p: Path)
    requires Calm(t, p)
    ensures CutOff(CopyChanges(h, t), p, 0)
    decreases p
  {
    hide CutOff, HashOf;
    if !t.Changed() {
      CutHere(CopyChanges(h, t), p);
    } else {
      CalmCut(h, t.Child(p[0]), p[1..]);
      CutBelow(CopyChanges(h, t), p);
    }
  }

  /**
   A delta leaves out what did not change. Over every run after a reset: at a position below the root
   where there was a node at the reset, if no key was put at or below it and none dropped at or below
   its parent, the delta has a stub there or above.
   */
  lemma DeltaLeavesOut(h: HashFn, n: nat, s: State, ops: seq<Op>, p: Path)
    requires Inv(h, n, s) && AllFit(ops, n) && NoReset(ops) && |p| > 0
    requires ShapeAt(RootOf(s.dict, n), p) != Nil && forall i :: 0 <= i < |ops| ==> Avoids(ops[i], p)
    ensures CutOff(NewDelta(h, Epoch(h, n, s, ops).tree), p, 1)
  {
    hide Avoids, CutOff, Calm;
    StepInv(h, n, s, Reset);
    var r := Step(h, n, s, Reset);
    UnchangeAll(s.tree, s.base);
    UnchangeCache(h, s.tree);
    UnchangedCalm(r.tree, p);
    RunCalm(h, n, r, ops, p);
    RootCut(h, Epoch(h, n, s, ops).tree, p);
  }

  lemma RootCut(h: HashFn, t: T.Tree, p: Path)
    requires t.Interior? && |p| > 0 && Calm(t, p)
    ensures CutOff(NewDelta(h, t), p, 1)
  {
    var u := NewDelta(h, t);
    CalmCut(h, t.Child(p[0]), p[1..]);
    var i :| 0 <= i <= |p[1..]| && ShapeAt(CopyChanges(h, t.Child(p[0])), p[1..][..i]).Stub?;
    assert p[..i + 1][1..] == p[1..][..i] && p[..i + 1][0] == p[0];
    assert u.Child(p[0]) == CopyChanges(h, t.Child(p[0]));
    assert ShapeAt(u, p[..i + 1]).Stub?;
  }

  // ----- proofs -----

  /** Something was cut off or empty one level further down. */
  lemma CutBelow(u: Trie, p: Path)
    requires |p| > 0
    ensures CutOff(u.Child(p[0]), p[1..], 0) ==> CutOff(u, p, 0)
    ensures ShapeAt(u, p) == ShapeAt(u.Child(p[0]), p[1..])
  {
    if CutOff(u.Child(p[0]), p[1..], 0) {
      var i :| 0 <= i <= |p[1..]| && ShapeAt(u.Child(p[0]), p[1..][..i]).Stub?;
      assert p[..i + 1][1..] == p[1..][..i] && p[..i + 1][0] == p[0];
      assert ShapeAt(u, p[..i + 1]).Stub?;
    }
  }

  lemma CutHere(u: Trie, p: Path)
    requires u.Stub?
    ensures CutOff(u, p, 0)
  {
    assert p[..0] == [] && ShapeAt(u, p[..0]).Stub?;
  }

  /** A proof shows nothing off the paths of its keys: there it has a stub or an empty leaf at the latest. */
  lemma {:induction false} ProofLeavesOut(h: HashFn, t: Trie, keys: seq<Bytes>, d: nat, p: Path)
    requires Covers(t, keys, d) && ShapeAt(t, p) != Nil
    requires forall k :: k in keys ==> d <= 8 * |k| && !Passes(k, p, d)
    ensures CutOff(CopyPaths(h, t, keys, d), p, 0) || ShapeAt(CopyPaths(h, t, keys, d), p) == Empty
    decreases p
  {
    hide CutOff, HashOf;
    var u := CopyPaths(h, t, keys, d);
    if |p| > 0 {
      NilAt(p[1..]);
    }
    if keys == [] {
      if !t.Empty? {
        CutHere(u, p);
      }
    } else {
      assert keys[0] in keys;
      assert |p| > 0 && t.Inner?;
      OffSide(keys, d, p);
      CutBelow(u, p);
      assert u.Child(p[0]) == CopyPaths(h, t.Child(p[0]), Turn(keys, d, p[0]), d + 1);
      ProofLeavesOut(h, t.Child(p[0]), Turn(keys, d, p[0]), d + 1, p[1..]);
    }
  }

  lemma OffSide(keys: seq<Bytes>, d: nat, p: Path)
    requires |p| > 0 && forall k :: k in keys ==> !Passes(k, p, d)
    ensures forall k :: k in Turn(keys, d, p[0]) ==> d + 1 <= 8 * |k| && !Passes(k, p[1..], d + 1)
  {
    hide Passes;
    forall k | k in Turn(keys, d, p[0])
      ensures d + 1 <= 8 * |k| && !Passes(k, p[1..], d + 1)
    {
      PassesTail(k, p, d);
    }
  }

  /** The same for the proof of a map. */
  lemma MapProofLeavesOut(h: HashFn, m: Dict, keys: seq<Bytes>, n: nat, p: Path)
    requires Under(m, [], n) && n > 0 && Sized(keys, n) && ShapeAt(RootOf(m, n), p) != Nil
    requires forall k :: k in keys ==> !Passes(k, p, 0)
    ensures Covers(RootOf(m, n), keys, 0)
    ensures var u := CopyPaths(h, RootOf(m, n), keys, 0); CutOff(u, p, 0) || ShapeAt(u, p) == Empty
  {
    RootOfCovers(m, keys, n);
    ProofLeavesOut(h, RootOf(m, n), keys, 0, p);
  }

  // ----- hashing -----

  /** The interior nodes on the path of a key. */
  function PathLength(t: Trie, k: Bytes, d: nat): nat
    requires Reaches(t, k, d)
  {
    if t.Inner? then 1 + PathLength(t.Child(Bit(k, d)), k, d + 1) else 0
  }

  lemma {:induction false} SplitStale(a: T.Tree, b: T.Tree, d: nat)
    requires a.DictLeaf? && b.DictLeaf? && a.key != b.key && Agree(a.key, b.key, d) && !a.Stale() && b.Stale()
    ensures Reaches(T.Split(a, b, d).Shape(), b.key, d)
    ensures StaleNodes(T.Split(a, b, d)) == PathLength(T.Split(a, b, d).Shape(), b.key, d) + 1
    decreases 8 * |a.key| - d
  {
    if d == 8 * |a.key| {
      AgreeOnAll(a.key, b.key);
    } else if Bit(a.key, d) == Bit(b.key, d) {
      SplitStale(a, b, d + 1);
    }
  }

  /** After an insertion, stale are the interior nodes on the path of the key, and its leaf unless it had that value. */
  lemma {:induction false} InsertStale(t: T.Tree, k: Bytes, v: Bytes, d: nat)
    requires Routes(t.Shape(), k, d) && Reaches(t.Shape(), k, d) && StaleNodes(t) == 0
    ensures var r := T.Insert(t, k, v, d);
            && Reaches(r.Shape(), k, d)
            && StaleNodes(r) ==
               PathLength(r.Shape(), k, d) + (if Lookup(t.Shape(), k, d) == Present(v) then 0 else 1)
    decreases t
  {
    hide Agree;
    match t
    case EmptyLeaf =>
    case DictLeaf(key, _, _) =>
      if key != k {
        SplitStale(T.MarkChanged(t), T.NewLeaf(k, v), d);
      }
    case Interior(_, _, _) =>
      hide T.Split, Bit;
      var b := Bit(k, d);
      InsertStale(t.Child(b), k, v, d + 1);
      var r := T.Insert(t, k, v, d);
      assert r.Shape().Child(b) == T.Insert(t.Child(b), k, v, d + 1).Shape();
  }

  /** After a deletion, stale are the interior nodes on the path of the key that are left. */
  lemma {:induction false} DeleteStale(t: T.Tree, k: Bytes, d: nat, isRoot: bool)
    requires Reaches(t.Shape(), k, d) && StaleNodes(t) == 0
    ensures var r := T.Delete(t, k, d, isRoot);
            Reaches(r.Shape(), k, d) && StaleNodes(r) == PathLength(r.Shape(), k, d)
    decreases t
  {
    if t.Interior? {
      var b := Bit(k, d);
      DeleteStale(t.Child(b), k, d + 1, false);
      var c, r := T.Delete(t.Child(b), k, d + 1, false), T.Delete(t, k, d, isRoot);
      if r.Interior? {
        assert r == T.SetChild(t, b, c);
        assert r.Shape().Child(b) == c.Shape();
      }
    }
  }

  /** The cost of a commitment after one more insertion into a committed dictionary. */
  lemma PutCost(h: HashFn, n: nat, s: State, k: Bytes, v: Bytes)
    requires Inv(h, n, s) && |k| == n && StaleNodes(s.tree) == 0
    ensures Under(s.dict[k := v], [], n) && Reaches(RootOf(s.dict[k := v], n), k, 0)
    ensures T.Recalculations(Step(h, n, s, Put(k, v)).tree) ==
            PathLength(RootOf(s.dict[k := v], n), k, 0) + (if k in s.dict && s.dict[k] == v then 0 else 1)
  {
    hide RootOf, Under;
    PutStep(h, n, s, k, v);
    var s' := Step(h, n, s, Put(k, v));
    InvParts(h, n, s);
    InvParts(h, n, s');
    LookupRootOf(s.dict, k, n);
    InsertStale(s.tree, k, v, 0);
    RecalculationsOk(h, s'.tree);
  }

  /** The cost after one more deletion, whether or not the key was there. */
  lemma DropCost(h: HashFn, n: nat, s: State, k: Bytes)
    requires Inv(h, n, s) && |k| == n && StaleNodes(s.tree) == 0
    ensures Under(s.dict - {k}, [], n) && Reaches(RootOf(s.dict - {k}, n), k, 0)
    ensures T.Recalculations(Step(h, n, s, Drop(k)).tree) == PathLength(RootOf(s.dict - {k}, n), k, 0)
  {
    hide RootOf, Under;
    DropStep(h, n, s, k);
    var s' := Step(h, n, s, Drop(k));
    InvParts(h, n, s);
    InvParts(h, n, s');
    DeleteStale(s.tree, k, 0, true);
    RecalculationsOk(h, s'.tree);
  }

  /** The turns to the node at which the descent along `k` stops. */
  function PathOf(t: Trie, k: Bytes, d: nat): Path
    requires Reaches(t, k, d)
  {
    if t.Inner? then [Bit(k, d)] + PathOf(t.Child(Bit(k, d)), k, d + 1) else []
  }

  /** Writing the value that is there leaves the leaf as it is, flags and buffer included. */
  lemma {:induction false} SameValueSameLeaf(t: T.Tree, k: Bytes, v: Bytes, d: nat)
    requires Routes(t.Shape(), k, d) && Reaches(t.Shape(), k, d) && Lookup(t.Shape(), k, d) == Present(v)
    ensures var p := PathOf(t.Shape(), k, d);
            && HasNode(t, p) && HasNode(T.Insert(t, k, v, d), p) && At(T.Insert(t, k, v, d), p) == At(t, p)
            && T.Insert(t, k, v, d).Shape() == t.Shape()
    decreases t
  {
    if t.Interior? {
      var b := Bit(k, d);
      SameValueSameLeaf(t.Child(b), k, v, d + 1);
      var p := PathOf(t.Shape(), k, d);
      assert p[0] == b && p[1..] == PathOf(t.Child(b).Shape(), k, d + 1);
    }
  }

  /** Of a reachable dictionary: putting an entry that is there changes nothing at its leaf. */
  lemma PutAgain(h: HashFn, n: nat, s: State, k: Bytes)
    requires Inv(h, n, s) && |k| == n && k in s.dict
    ensures Reaches(RootOf(s.dict, n), k, 0)
    ensures var p, s' := PathOf(RootOf(s.dict, n), k, 0), Step(h, n, s, Put(k, s.dict[k]));
            s'.dict == s.dict && HasNode(s.tree, p) && HasNode(s'.tree, p) && At(s'.tree, p) == At(s.tree, p)
  {
    hide RootOf, Under;
    InvParts(h, n, s);
    PutStep(h, n, s, k, s.dict[k]);
    LookupRootOf(s.dict, k, n);
    SameValueSameLeaf(s.tree, k, s.dict[k], 0);
  }

  /** The hash buffers from left to right, each node before its children. */
  function BuffersOf(t: T.Tree): seq<Digest>
  {
    match t
    case EmptyLeaf => []
    case DictLeaf(_, _, m) => [m.cache]
    case Interior(l, r, m) => [m.cache] + BuffersOf(l) + BuffersOf(r)
  }

  /** Overwriting a value, clearing flags and copying write no buffer. */
  lemma {:induction false} BuffersKept(t: T.Tree, k: Bytes, v: Bytes, d: nat)
    requires Routes(t.Shape(), k, d) && Reaches(t.Shape(), k, d) && Lookup(t.Shape(), k, d).Present?
    ensures BuffersOf(T.Insert(t, k, v, d)) == BuffersOf(t)
    decreases t
  {
    if t.Interior? {
      BuffersKept(t.Child(Bit(k, d)), k, v, d + 1);
    }
  }

  lemma {:induction false} BuffersCopied(t: T.Tree)
    ensures BuffersOf(T.Unchange(t)) == BuffersOf(t) && BuffersOf(T.Copy(t)) == BuffersOf(t)
  {
    if t.Interior? {
      BuffersCopied(t.left);
      BuffersCopied(t.right);
    }
  }
}
