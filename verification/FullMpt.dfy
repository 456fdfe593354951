/**
 `FullMPT` on the heap: nodes whose child pointers, values, flags and hash buffers are updated in
 place. Every method is proved to compute the corresponding function of module Tree.
 */
module FullMpt {
  import opened Bits
  import opened Trie
  import T = Tree
  import I = Invariants
  import M = Machine
  import C = Canonical
  import P = Partial
  import D = Delta

  /** A child pointer. The empty leaf is one shared object without fields. */
  datatype Node = EmptyRef | LeafRef(leaf: DictionaryLeafNode) | InteriorRef(node: InteriorNode)
  {
    predicate IsLeaf() { !InteriorRef? }

    predicate Changed()
      reads if LeafRef? then {leaf} else {}, if InteriorRef? then {node} else {}
    {
      if LeafRef? then leaf.changed else InteriorRef? && node.changed
    }
  }

  class DictionaryLeafNode {
    var key: Bytes
    var value: Bytes
    var commitmentHash: Digest
    var changed: bool
    var recalculateHash: bool

    constructor (key: Bytes, value: Bytes)
      ensures Is(T.NewLeaf(key, value))
    {
      this.key, this.value := key, value;
      commitmentHash, changed, recalculateHash := ZERO, true, true;
    }

    constructor CachedHash(key: Bytes, value: Bytes, hash: Digest)
      ensures Is(T.DictLeaf(key, value, T.Mark(true, false, hash)))
    {
      this.key, this.value := key, value;
      commitmentHash, changed, recalculateHash := hash, true, false;
    }

    /** The leaf holds exactly what `t` says. */
    ghost predicate Is(t: T.Tree)
      reads this
    {
      t == T.DictLeaf(key, value, T.Mark(changed, recalculateHash, commitmentHash))
    }

    method SetValue(v: Bytes, ghost t: T.Tree)
      requires Is(t)
      modifies this
      ensures Is(T.SetValue(t, v))
    {
      if value != v {
        value, changed, recalculateHash := v, true, true;
      }
    }

    method GetHash(h: HashFn, ghost t: T.Tree) returns (r: Digest, ghost work: nat)
      requires Is(t)
      modifies this
      ensures Is(T.Rehash(h, t)) && r == T.Cached(T.Rehash(h, t)) && work == T.Recalculations(t)
    {
      work := 0;
      if recalculateHash {
        commitmentHash, recalculateHash := h(key + value), false;
        work := 1;
      }
      r := commitmentHash;
    }
  }

  class InteriorNode {
    var hash: Digest
    var recalculateHash: bool
    var changed: bool
    var leftChild: Node
    var rightChild: Node
    ghost var leftFp: set<object>
    ghost var rightFp: set<object>

    constructor (l: Node, r: Node, ghost lf: set<object>, ghost rf: set<object>)
      ensures leftChild == l && rightChild == r && leftFp == lf && rightFp == rf
      ensures Marked(T.FRESH)
    {
      leftChild, rightChild, leftFp, rightFp := l, r, lf, rf;
      hash, changed, recalculateHash := ZERO, true, true;
    }

    constructor CachedHash(l: Node, r: Node, d: Digest, ghost lf: set<object>, ghost rf: set<object>)
      ensures leftChild == l && rightChild == r && leftFp == lf && rightFp == rf
      ensures Marked(T.Mark(true, false, d))
    {
      leftChild, rightChild, leftFp, rightFp := l, r, lf, rf;
      hash, changed, recalculateHash := d, true, false;
    }

    ghost predicate Marked(m: T.Mark)
      reads this
    {
      m == T.Mark(changed, recalculateHash, hash)
    }

    function Child(b: bool): Node
      reads this
    {
      if b then rightChild else leftChild
    }

    ghost function ChildFp(b: bool): set<object>
      reads this
    {
      if b then rightFp else leftFp
    }

    /** `SetLeftChild` and `SetRightChild`. */
    method SetChild(b: bool, c: Node, ghost cf: set<object>)
      modifies this
      ensures Child(b) == c && ChildFp(b) == cf
      ensures Child(!b) == old(Child(!b)) && ChildFp(!b) == old(ChildFp(!b))
      ensures Marked(T.Mark(true, true, old(hash)))
    {
      if b {
        rightChild, rightFp := c, cf;
      } else {
        leftChild, leftFp := c, cf;
      }
      changed, recalculateHash := true, true;
    }
  }

  /** The objects `fp` below `n` form the tree `t`; siblings share no object. */
  ghost predicate Rep(n: Node, t: T.Tree, fp: set<object>)
    reads fp
    decreases t
  {
    match t
    case EmptyLeaf => n.EmptyRef? && fp == {}
    case DictLeaf(_, _, _) => n.LeafRef? && fp == {n.leaf} && n.leaf.Is(t)
    case Interior(l, r, m) =>
      && n.InteriorRef? && n.node in fp
      && n.node.Marked(m)
      && n.node !in n.node.leftFp && n.node !in n.node.rightFp && n.node.leftFp !! n.node.rightFp
      && fp == {n.node} + n.node.leftFp + n.node.rightFp
      && Rep(n.node.leftChild, l, n.node.leftFp)
      && Rep(n.node.rightChild, r, n.node.rightFp)
  }

  method SplitLeaves(a: DictionaryLeafNode, b: DictionaryLeafNode, d: nat, ghost ta: T.Tree, ghost tb: T.Tree)
    returns (r: InteriorNode, ghost fp: set<object>)
    requires a != b && a.Is(ta) && b.Is(tb)
    requires a.key != b.key && Agree(a.key, b.key, d)
    ensures Rep(InteriorRef(r), T.Split(ta, tb, d), fp)
    ensures fresh(fp - {a, b})
    decreases 8 * |a.key| - d
  {
    if d == 8 * |a.key| {
      AgreeOnAll(a.key, b.key);
    }
    var bitA, bitB := Bit(a.key, d), Bit(b.key, d);
    if bitA == bitB {
      var rest, rf := SplitLeaves(a, b, d + 1, ta, tb);
      if bitA {
        r := new InteriorNode(EmptyRef, InteriorRef(rest), {}, rf);
      } else {
        r := new InteriorNode(InteriorRef(rest), EmptyRef, rf, {});
      }
      fp := {r} + rf;
    } else {
      if bitA {
        r := new InteriorNode(LeafRef(b), LeafRef(a), {b}, {a});
      } else {
        r := new InteriorNode(LeafRef(a), LeafRef(b), {a}, {b});
      }
      fp := {r, a, b};
    }
  }

  /** Setting a child whose objects are apart from the node and its other child. */
  method Attach(i: InteriorNode, b: bool, c: Node, ghost t: T.Tree, ghost tc: T.Tree, ghost cf: set<object>)
    returns (ghost fp: set<object>)
    requires t.Interior? && i.Marked(t.mark)
    requires Rep(i.Child(!b), t.Child(!b), i.ChildFp(!b)) && Rep(c, tc, cf)
    requires i !in cf && i !in i.ChildFp(!b) && cf !! i.ChildFp(!b)
    modifies i
    ensures fp == {i} + cf + old(i.ChildFp(!b))
    ensures Rep(InteriorRef(i), T.SetChild(t, b, tc), fp)
  {
    fp := {i} + cf + i.ChildFp(!b);
    i.SetChild(b, c, cf);
  }

  method InsertHelper(key: Bytes, value: Bytes, d: nat, n: Node, ghost t: T.Tree, ghost fp: set<object>)
    returns (r: Node, ghost fp': set<object>)
    requires Rep(n, t, fp) && Routes(t.Shape(), key, d)
    modifies fp
    ensures Rep(r, T.Insert(t, key, value, d), fp') && fresh(fp' - fp)
    ensures n.InteriorRef? ==> r == n
    decreases t
  {
    hide Agree;
    if n.EmptyRef? {
      var leaf := new DictionaryLeafNode(key, value);
      r, fp' := LeafRef(leaf), {leaf};
    } else if n.LeafRef? {
      var leaf := n.leaf;
      if leaf.key == key {
        leaf.SetValue(value, t);
        r, fp' := n, fp;
      } else {
        var add := new DictionaryLeafNode(key, value);
        leaf.changed := true;
        var s;
        s, fp' := SplitLeaves(leaf, add, d, T.MarkChanged(t), T.NewLeaf(key, value));
        r := InteriorRef(s);
      }
    } else {
      var i := n.node;
      var b := Bit(key, d);
      var c, cf := InsertHelper(key, value, d + 1, i.Child(b), t.Child(b), i.ChildFp(b));
      fp' := Attach(i, b, c, t, T.Insert(t.Child(b), key, value, d + 1), cf);
      r := n;
    }
  }

  method Collapse(i: InteriorNode, b: bool, c: Node, isRoot: bool,
                  ghost t: T.Tree, ghost tc: T.Tree, ghost cf: set<object>)
    returns (r: Node, ghost fp: set<object>)
    requires t.Interior? && i.Marked(t.mark)
    requires Rep(i.Child(!b), t.Child(!b), i.ChildFp(!b)) && Rep(c, tc, cf)
    requires i !in cf && i !in i.ChildFp(!b) && cf !! i.ChildFp(!b)
    modifies i, i.ChildFp(!b)
    ensures fp <= {i} + cf + old(i.ChildFp(!b))
    ensures Rep(r, T.Collapse(t, b, tc, isRoot), fp)
    ensures isRoot ==> r == InteriorRef(i)
  {
    var o := i.Child(!b);
    if o.EmptyRef? && c.IsLeaf() && !isRoot {
      r, fp := c, cf;
    } else if c.EmptyRef? && o.IsLeaf() && !isRoot {
      fp := i.ChildFp(!b);
      if o.LeafRef? {
        o.leaf.changed := true;
      }
      r := o;
    } else {
      fp := Attach(i, b, c, t, tc, cf);
      r := InteriorRef(i);
    }
  }

  method DeleteHelper(key: Bytes, d: nat, n: Node, isRoot: bool, ghost t: T.Tree, ghost fp: set<object>)
    returns (r: Node, ghost fp': set<object>)
    requires Rep(n, t, fp) && Reaches(t.Shape(), key, d)
    modifies fp
    ensures Rep(r, T.Delete(t, key, d, isRoot), fp') && fresh(fp' - fp)
    ensures n.InteriorRef? && isRoot ==> r == n
    decreases t
  {
    if n.EmptyRef? {
      r, fp' := n, fp;
    } else if n.LeafRef? {
      var leaf := n.leaf;
      if leaf.key == key {
        r, fp' := EmptyRef, {};
      } else {
        r, fp' := n, fp;
      }
    } else {
      var i := n.node;
      var b := Bit(key, d);
      var c, cf := DeleteHelper(key, d + 1, i.Child(b), false, t.Child(b), i.ChildFp(b));
      r, fp' := Collapse(i, b, c, isRoot, t, T.Delete(t.Child(b), key, d + 1, false), cf);
    }
  }

  method GetHelper(n: Node, key: Bytes, d: nat, ghost t: T.Tree, ghost fp: set<object>) returns (r: Option<Bytes>)
    requires Rep(n, t, fp) && Reaches(t.Shape(), key, d)
    ensures Lookup(t.Shape(), key, d) == (if r.Some? then Present(r.value) else Absent)
    decreases t
  {
    if n.EmptyRef? {
      r := None;
    } else if n.LeafRef? {
      var leaf := n.leaf;
      r := if leaf.key == key then Some(leaf.value) else None;
    } else {
      var i := n.node;
      var b := Bit(key, d);
      r := GetHelper(i.Child(b), key, d + 1, t.Child(b), i.ChildFp(b));
    }
  }

  /** `GetHash`; `work` counts the hash function's invocations. */
  method GetHash(h: HashFn, n: Node, ghost t: T.Tree, ghost fp: set<object>) returns (r: Digest, ghost work: nat)
    requires Rep(n, t, fp)
    modifies fp
    ensures Rep(n, T.Rehash(h, t), fp) && r == T.Cached(T.Rehash(h, t))
    ensures work == T.Recalculations(t)
    decreases t
  {
    if n.EmptyRef? {
      r, work := ZERO, 0;
    } else if n.LeafRef? {
      var leaf := n.leaf;
      r, work := leaf.GetHash(h, t);
    } else {
      var i := n.node;
      work := 0;
      if i.recalculateHash {
        var lh: Bytes, lw := GetHash(h, i.leftChild, t.left, i.leftFp);
        var rh: Bytes, rw := GetHash(h, i.rightChild, t.right, i.rightFp);
        i.hash := h(lh + rh);
        i.recalculateHash := false;
        work := 1 + lw + rw;
      }
      r := i.hash;
    }
  }

  method MarkUnchangedAll(n: Node, ghost t: T.Tree, ghost fp: set<object>)
    requires Rep(n, t, fp)
    modifies fp
    ensures Rep(n, T.Unchange(t), fp)
    decreases t
  {
    if n.EmptyRef? {
    } else if n.LeafRef? {
      var leaf := n.leaf;
      leaf.changed := false;
    } else {
      var i := n.node;
      if i.leftChild.Changed() {
        MarkUnchangedAll(i.leftChild, t.left, i.leftFp);
      }
      if i.rightChild.Changed() {
        MarkUnchangedAll(i.rightChild, t.right, i.rightFp);
      }
      i.changed := false;
    }
  }

  method CountHashes(n: Node, ghost t: T.Tree, ghost fp: set<object>) returns (r: nat)
    requires Rep(n, t, fp)
    ensures r == T.Recalculations(t)
    decreases t
  {
    if n.EmptyRef? {
      r := 0;
    } else if n.LeafRef? {
      var leaf := n.leaf;
      r := if leaf.recalculateHash then 1 else 0;
    } else {
      var i := n.node;
      r := 0;
      if i.recalculateHash {
        var x := CountHashes(i.leftChild, t.left, i.leftFp);
        var y := CountHashes(i.rightChild, t.right, i.rightFp);
        r := 1 + x + y;
      }
    }
  }

  method DeepCopy(n: Node, ghost t: T.Tree, ghost fp: set<object>) returns (r: Node, ghost fp': set<object>)
    requires Rep(n, t, fp)
    ensures Rep(r, T.Copy(t), fp') && fresh(fp')
    decreases t
  {
    if n.EmptyRef? {
      r, fp' := EmptyRef, {};
    } else if n.LeafRef? {
      var leaf := n.leaf;
      var l := new DictionaryLeafNode.CachedHash(leaf.key, leaf.value, leaf.commitmentHash);
      r, fp' := LeafRef(l), {l};
    } else {
      var i := n.node;
      var left, lf := DeepCopy(i.leftChild, t.left, i.leftFp);
      var right, rf := DeepCopy(i.rightChild, t.right, i.rightFp);
      var c := new InteriorNode.CachedHash(left, right, i.hash, lf, rf);
      r, fp' := InteriorRef(c), {c} + lf + rf;
    }
  }

  /** `copyMultiplePaths`. Asking nodes for their hashes may fill caches on the way. */
  method CopyMultiplePaths(h: HashFn, keys: seq<Bytes>, n: Node, d: nat, ghost t: T.Tree, ghost fp: set<object>)
    returns (p: Trie, ghost t': T.Tree)
    requires Rep(n, t, fp) && I.CacheOk(h, t) && P.Covers(t.Shape(), keys, d)
    modifies fp
    ensures Rep(n, t', fp) && I.Hashed(h, t, t')
    ensures p == P.CopyPaths(h, t.Shape(), keys, d)
    decreases t
  {
    hide P.Turn, T.Rehash, I.Hashed;
    I.RehashOk(h, t);
    I.RehashHashed(h, t);
    if keys == [] {
      if n.EmptyRef? {
        p, t' := Empty, t;
      } else {
        var r, w := GetHash(h, n, t, fp);
        p, t' := Stub(r), T.Rehash(h, t);
      }
    } else if n.EmptyRef? {
      p, t' := Empty, t;
    } else if n.LeafRef? {
      p := Leaf(n.leaf.key, n.leaf.value);
      var r, w := n.leaf.GetHash(h, t);
      t' := T.Rehash(h, t);
    } else {
      var i := n.node;
      var matchLeft, matchRight := P.Partition(keys, d);
      var l, tl := CopyMultiplePaths(h, matchLeft, i.leftChild, d + 1, t.left, i.leftFp);
      var r, tr := CopyMultiplePaths(h, matchRight, i.rightChild, d + 1, t.right, i.rightFp);
      p := Inner(l, r);
      t' := HashParent(h, n, t, tl, tr, fp);
    }
  }

  /** The hash a new node is given as its cached hash, asked of the node it is copied from. */
  method HashParent(h: HashFn, n: Node, ghost t: T.Tree, ghost tl: T.Tree, ghost tr: T.Tree, ghost fp: set<object>)
    returns (ghost t': T.Tree)
    requires t.Interior? && Rep(n, T.Interior(tl, tr, t.mark), fp)
    requires I.CacheOk(h, t) && I.Hashed(h, t.left, tl) && I.Hashed(h, t.right, tr)
    modifies fp
    ensures Rep(n, t', fp) && I.Hashed(h, t, t')
  {
    ghost var u := T.Interior(tl, tr, t.mark);
    I.LastingSame(t.left, tl, Nil);
    I.LastingSame(t.right, tr, Nil);
    I.RehashOk(h, u);
    I.RehashHashed(h, u);
    var r, w := GetHash(h, n, u, fp);
    t' := T.Rehash(h, u);
  }

  /** `copyChangesOnlyHelper`. */
  method CopyChangesOnly(h: HashFn, n: Node, ghost t: T.Tree, ghost fp: set<object>)
    returns (u: Trie, ghost t': T.Tree)
    requires Rep(n, t, fp) && I.CacheOk(h, t)
    modifies fp
    ensures Rep(n, t', fp) && I.Hashed(h, t, t')
    ensures u == D.CopyChanges(h, t)
    decreases t
  {
    I.RehashOk(h, t);
    I.RehashHashed(h, t);
    if !n.Changed() {
      var r, w := GetHash(h, n, t, fp);
      u, t' := Stub(r), T.Rehash(h, t);
    } else if n.LeafRef? {
      u := Leaf(n.leaf.key, n.leaf.value);
      var r, w := n.leaf.GetHash(h, t);
      t' := T.Rehash(h, t);
    } else {
      var i := n.node;
      var l, tl := CopyChangesOnly(h, i.leftChild, t.left, i.leftFp);
      var r, tr := CopyChangesOnly(h, i.rightChild, t.right, i.rightFp);
      u := Inner(l, r);
      t' := HashParent(h, n, t, tl, tr, fp);
    }
  }

  /**
   The dictionary object. `state` is the abstract run state; every method is one step of it, and
   the invariant of all runs is part of `Valid`.
   */
  class FullMPT {
    const h: HashFn
    ghost const n: nat
    var root: InteriorNode
    ghost var state: M.State
    ghost var fp: set<object>

    ghost predicate Valid()
      reads this, fp
    {
      this !in fp && M.Inv(h, n, state) && Rep(InteriorRef(root), state.tree, fp)
    }

    /** The commitment, recomputed from the map. */
    ghost function RootHash(): Bytes
      reads this, fp
      requires Valid()
    {
      HashOf(h, C.RootOf(state.dict, n))
    }

    /** The shape of the trie, built from the map. */
    ghost function RootShape(): Trie
      reads this, fp
      requires Valid()
    {
      C.RootOf(state.dict, n)
    }

    /** Nothing waits to be rehashed. */
    ghost predicate Fresh()
      reads this
    {
      I.StaleNodes(state.tree) == 0
    }

    constructor (h: HashFn, ghost n: nat)
      requires n > 0
      ensures Valid() && fresh(fp) && this.h == h && this.n == n && state == M.INIT
    {
      var r := new InteriorNode(EmptyRef, EmptyRef, {}, {});
      this.h, this.n := h, n;
      root, fp, state := r, {r}, M.INIT;
      new;
      M.InitInv(h, n);
    }

    method Insert(key: Bytes, value: Bytes)
      requires Valid() && |key| == n
      modifies this, fp
      ensures Valid() && fresh(fp - old(fp))
      ensures state == M.Step(h, n, old(state), M.Put(key, value))
      ensures state.dict == old(state.dict)[key := value] && state.base == old(state.base)
    {
      hide M.Inv, M.Step;
      M.PutStep(h, n, state, key, value);
      ghost var s := M.Step(h, n, state, M.Put(key, value));
      var r, f := InsertHelper(key, value, 0, InteriorRef(root), state.tree, fp);
      state, fp := s, f;
    }

    method Delete(key: Bytes)
      requires Valid() && |key| == n
      modifies this, fp
      ensures Valid() && fresh(fp - old(fp))
      ensures state == M.Step(h, n, old(state), M.Drop(key))
      ensures state.dict == old(state.dict) - {key} && state.base == old(state.base)
    {
      hide M.Inv, M.Step;
      M.DropStep(h, n, state, key);
      ghost var s := M.Step(h, n, state, M.Drop(key));
      var r, f := DeleteHelper(key, 0, InteriorRef(root), true, state.tree, fp);
      state, fp := s, f;
    }

    method Get(key: Bytes) returns (r: Option<Bytes>)
      requires Valid() && |key| == n
      ensures r == if key in state.dict then Some(state.dict[key]) else None
    {
      C.LookupRootOf(state.dict, key, n);
      r := GetHelper(InteriorRef(root), key, 0, state.tree, fp);
    }

    /** The commitment depends on the map alone; hashing costs exactly the stale nodes. */
    method Commitment() returns (r: Digest, ghost work: nat)
      requires Valid()
      modifies this, fp
      ensures Valid() && fp == old(fp)
      ensures state == M.Step(h, n, old(state), M.Commit)
      ensures state.dict == old(state.dict) && state.base == old(state.base)
      ensures r == old(RootHash()) && r == RootHash() && r == C.RootDigest(h, state.dict, n)
      ensures work == old(I.StaleNodes(state.tree)) && Fresh()
    {
      hide M.Inv, M.Step, C.RootDigest, C.RootOf, C.Under;
      M.CommitStep(h, n, state);
      M.InvParts(h, n, state);
      C.CommitmentDigest(h, state.dict, n);
      ghost var s := M.Step(h, n, state, M.Commit);
      r, work := GetHash(h, InteriorRef(root), state.tree, fp);
      state := s;
    }

    method CountRecalculations() returns (r: nat)
      requires Valid()
      ensures r == I.StaleNodes(state.tree)
    {
      I.RecalculationsOk(h, state.tree);
      r := CountHashes(InteriorRef(root), state.tree, fp);
    }

    method Reset()
      requires Valid()
      modifies this, fp
      ensures Valid() && fp == old(fp)
      ensures state == M.Step(h, n, old(state), M.Reset)
      ensures state.dict == old(state.dict) && RootHash() == old(RootHash())
      ensures state.base == RootShape() && RootShape() == old(RootShape())
    {
      hide M.Inv, M.Step, C.RootOf, C.Under;
      M.ResetStep(h, n, state);
      ghost var s := M.Step(h, n, state, M.Reset);
      MarkUnchangedAll(InteriorRef(root), state.tree, fp);
      state := s;
    }

    /**
     A dictionary in new nodes with the same map. It takes the bytes of all hash buffers for right, so it
     is a valid one if and only if they are, which they are when nothing is stale.
     */
    method Copy() returns (c: FullMPT)
      requires Valid()
      ensures fresh(c) && fresh(c.fp) && c.h == h && c.n == n
      ensures c.state == M.State(T.Copy(state.tree), state.dict, Nil) && Rep(InteriorRef(c.root), c.state.tree, c.fp)
      ensures c.Valid() <==> I.CacheOk(h, T.Copy(state.tree))
      ensures c.Valid() ==> c.RootHash() == RootHash() && c.RootShape() == RootShape() && c.Fresh()
      ensures Fresh() ==> c.Valid()
    {
      hide I.CacheOk, C.RootOf, C.Under;
      if Fresh() {
        I.CopyOk(h, state.tree);
      }
      I.CopyShape(state.tree);
      I.CopyFlags(state.tree, Nil);
      var r, f := DeepCopy(InteriorRef(root), state.tree, fp);
      c := new FullMPT.WithRoot(h, n, r.node, f, M.State(T.Copy(state.tree), state.dict, Nil));
    }

    constructor WithRoot(h: HashFn, ghost n: nat, root: InteriorNode, ghost fp: set<object>, ghost state: M.State)
      requires Rep(InteriorRef(root), state.tree, fp)
      ensures this.h == h && this.n == n && this.fp == fp && this.state == state && this.root == root
      ensures Rep(InteriorRef(root), state.tree, fp) && (Valid() <==> M.Inv(h, n, state))
    {
      hide M.Inv;
      this.h, this.n, this.root, this.fp, this.state := h, n, root, fp, state;
    }

    /** `NewPartialMPTIncludingKeys`: refused for no keys, else the proof of the map's trie. */
    method NewPartial(keys: seq<Bytes>) returns (p: Option<Trie>)
      requires Valid() && P.Sized(keys, n)
      modifies this, fp
      ensures Valid() && fp == old(fp) && state.dict == old(state.dict) && state.base == old(state.base)
      ensures RootHash() == old(RootHash()) && (old(Fresh()) ==> Fresh())
      ensures P.Covers(C.RootOf(state.dict, n), keys, 0)
      ensures p == if keys == [] then None else Some(P.CopyPaths(h, C.RootOf(state.dict, n), keys, 0))
    {
      hide M.Inv, C.RootOf, C.Under, P.Covers, P.CopyPaths, P.Sized, I.CacheOk, I.Hashed, I.StaleNodes;
      M.ProofReady(h, n, state, keys);
      if keys == [] {
        return None;
      }
      var q, t := CopyMultiplePaths(h, keys, InteriorRef(root), 0, state.tree, fp);
      M.HashedInv(h, n, state, t);
      state := M.State(t, state.dict, state.base);
      p := Some(q);
    }

    method NewDelta() returns (u: Trie)
      requires Valid()
      modifies this, fp
      ensures Valid() && fp == old(fp) && state.dict == old(state.dict) && state.base == old(state.base)
      ensures RootHash() == old(RootHash()) && (old(Fresh()) ==> Fresh())
      ensures state.tree.Shape() == old(state.tree.Shape()) && old(state.tree).Interior? && state.tree.Interior?
      ensures RootShape() == old(RootShape())
      ensures u == D.NewDelta(h, old(state.tree)) && u == D.NewDelta(h, state.tree)
      ensures D.BridgesFrom(h, n, state.base, state.dict, u) && D.Shallow(u, 0, n)
    {
      hide M.Inv, C.RootOf, C.Under, I.CacheOk, I.Hashed, D.NewDelta, D.BridgesFrom, D.Shallow, I.StaleNodes;
      M.InvParts(h, n, state);
      D.DeltaShallow(h, n, state);
      D.DeltaBridgesFrom(h, n, state);
      ghost var t := state.tree;
      ghost var t';
      u, t' := ChangedChildren(h, root, t, fp);
      M.HashedInv(h, n, state, t');
      state := M.State(t', state.dict, state.base);
    }
  }

  method ChangedChildren(h: HashFn, i: InteriorNode, ghost t: T.Tree, ghost fp: set<object>)
    returns (u: Trie, ghost t': T.Tree)
    requires t.Interior? && Rep(InteriorRef(i), t, fp) && I.CacheOk(h, t)
    modifies fp
    ensures Rep(InteriorRef(i), t', fp) && I.Hashed(h, t, t')
    ensures u == D.NewDelta(h, t) && t'.Interior? && u == D.NewDelta(h, t')
  {
    var l, tl := CopyChangesOnly(h, i.leftChild, t.left, i.leftFp);
    var r, tr := CopyChangesOnly(h, i.rightChild, t.right, i.rightFp);
    u := Inner(l, r);
    t' := T.Interior(tl, tr, t.mark);
    I.LastingSame(t.left, tl, Nil);
    I.LastingSame(t.right, tr, Nil);
    D.CopyChangesLasting(h, t.left, tl);
    D.CopyChangesLasting(h, t.right, tr);
  }
}
