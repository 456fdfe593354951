/**
 Copying a trie at any time. A deep copy takes the bytes in the hash buffers for right, stale or not.
 What those bytes are follows from the run: a buffer holds what the last commitment left in it, or
 zeros in a node made since.
 */
module Copies {
  import opened Bits
  import opened Trie
  import T = Tree
  import opened Canonical
  import opened Invariants
  import opened Machine
  import opened Binding

  /** The map at the last commitment of a run that starts with map `m` and last commitment `c`. */
  ghost function LastCommit(m: Dict, c: Option<Dict>, ops: seq<Op>): Option<Dict>
    decreases ops
  {
    if ops == [] then c
    else
      match ops[0]
      case Put(k, v) => LastCommit(m[k := v], c, ops[1..])
      case Drop(k) => LastCommit(m - {k}, c, ops[1..])
      case Reset => LastCommit(m, c, ops[1..])
      case Commit => LastCommit(m, Some(m), ops[1..])
  }

  /** The commitment last given out, zeros before the first. */
  ghost function LastBytes(h: HashFn, n: nat, c: Option<Dict>): Bytes
    requires n > 0 && (c.Some? ==> Under(c.value, [], n))
  {
    if c.None? then ZERO else HashOf(h, RootOf(c.value, n))
  }

  /**
   The buffers of `t` against the map `m` of the last commitment and `o`, the node that was at the
   same position in its trie. Leaves move and keep their buffers; interior nodes never move.
   */
  ghost predicate Buffers(h: HashFn, t: T.Tree, o: Trie, m: Dict)
  {
    match t
    case EmptyLeaf => true
    case DictLeaf(k, _, b) => b.cache == ZERO || (k in m && b.cache == h(k + m[k]))
    case Interior(l, r, b) =>
      && (b.cache == ZERO || (o.Inner? && b.cache == HashOf(h, o)))
      && Buffers(h, l, o.Child(false), m) && Buffers(h, r, o.Child(true), m)
  }

  lemma {:induction false} SplitBuffers(h: HashFn, a: T.Tree, b: T.Tree, d: nat, o: Trie, m: Dict)
    requires a.DictLeaf? && b.DictLeaf? && a.key != b.key && Agree(a.key, b.key, d)
    requires Buffers(h, a, Nil, m) && Buffers(h, b, Nil, m)
    ensures Buffers(h, T.Split(a, b, d), o, m)
    decreases 8 * |a.key| - d
  {
    if d == 8 * |a.key| {
      AgreeOnAll(a.key, b.key);
    } else if Bit(a.key, d) == Bit(b.key, d) {
      SplitBuffers(h, a, b, d + 1, o.Child(Bit(a.key, d)), m);
    }
  }

  lemma {:induction false} InsertBuffers(h: HashFn, t: T.Tree, k: Bytes, v: Bytes, d: nat, o: Trie, m: Dict)
    requires Routes(t.Shape(), k, d) && Buffers(h, t, o, m)
    ensures Buffers(h, T.Insert(t, k, v, d), o, m)
    decreases t
  {
    match t
    case EmptyLeaf =>
    case DictLeaf(key, _, _) =>
      if key != k {
        SplitBuffers(h, T.MarkChanged(t), T.NewLeaf(k, v), d, o, m);
      }
    case Interior(_, _, _) =>
      var b := Bit(k, d);
      InsertBuffers(h, t.Child(b), k, v, d + 1, o.Child(b), m);
  }

  lemma {:induction false} DeleteBuffers(h: HashFn, t: T.Tree, k: Bytes, d: nat, isRoot: bool, o: Trie, m: Dict)
    requires Reaches(t.Shape(), k, d) && Buffers(h, t, o, m)
    ensures Buffers(h, T.Delete(t, k, d, isRoot), o, m)
    decreases t
  {
    if t.Interior? {
      var b := Bit(k, d);
      DeleteBuffers(h, t.Child(b), k, d + 1, false, o.Child(b), m);
    }
  }

  lemma {:induction false} UnchangeBuffers(h: HashFn, t: T.Tree, o: Trie, m: Dict)
    requires Buffers(h, t, o, m)
    ensures Buffers(h, T.Unchange(t), o, m)
  {
    if t.Interior? {
      UnchangeBuffers(h, t.left, o.Child(false), m);
      UnchangeBuffers(h, t.right, o.Child(true), m);
    }
  }

  /** Every leaf is an entry of the map. */
  ghost predicate LeavesIn(t: Trie, m: Dict)
  {
    match t
    case Leaf(k, v) => k in m && m[k] == v
    case Inner(l, r) => LeavesIn(l, m) && LeavesIn(r, m)
    case _ => true
  }

  lemma {:induction false} TrieOfLeaves(part: Dict, p: Path, n: nat, m: Dict)
    requires Under(part, p, n) && forall k :: k in part ==> k in m && m[k] == part[k]
    ensures LeavesIn(TrieOf(part, p, n), m)
    decreases 8 * n - |p|
  {
    if |part| >= 2 {
      TwoKeys(part, p, n);
      TrieOfLeaves(Side(part, p, false, n), p + [false], n, m);
      TrieOfLeaves(Side(part, p, true, n), p + [true], n, m);
    }
  }

  lemma RootOfLeaves(m: Dict, n: nat)
    requires Under(m, [], n) && n > 0
    ensures LeavesIn(RootOf(m, n), m)
  {
    TrieOfLeaves(Side(m, [], false, n), [false], n, m);
    TrieOfLeaves(Side(m, [], true, n), [true], n, m);
  }

  /** Right after a commitment every buffer holds the hash of its node. */
  lemma {:induction false} FreshBuffers(h: HashFn, t: T.Tree, m: Dict)
    requires CacheOk(h, t) && StaleNodes(t) == 0 && LeavesIn(t.Shape(), m)
    ensures Buffers(h, t, t.Shape(), m)
  {
    if t.Interior? {
      FreshBuffers(h, t.left, m);
      FreshBuffers(h, t.right, m);
    } else if t.DictLeaf? {
      assert t.mark.cache == h(Preimage(h, t.Shape()));
    }
  }

  /** The buffers of a state whose last commitment was to `c`. */
  ghost predicate Remembers(h: HashFn, n: nat, s: State, c: Option<Dict>)
  {
    && n > 0 && s.tree.Interior? && (c.Some? ==> Under(c.value, [], n))
    && s.tree.mark.cache == LastBytes(h, n, c)
    && (if c.Some? then Buffers(h, s.tree, RootOf(c.value, n), c.value)
        else s.tree.Stale() && Buffers(h, s.tree, Nil, map[]))
  }

  lemma CommitRemembers(h: HashFn, n: nat, s: State)
    requires Inv(h, n, s)
    ensures Remembers(h, n, Step(h, n, s, Commit), Some(s.dict))
  {
    CommitStep(h, n, s);
    RehashOk(h, s.tree);
    RootOfLeaves(s.dict, n);
    FreshBuffers(h, T.Rehash(h, s.tree), s.dict);
  }

  lemma StepRemembers(h: HashFn, n: nat, s: State, c: Option<Dict>, op: Op)
    requires Inv(h, n, s) && Fits(op, n) && Remembers(h, n, s, c)
    ensures Remembers(h, n, Step(h, n, s, op), if op.Commit? then Some(s.dict) else c)
  {
    hide RootOf, Under;
    var o, m := (if c.Some? then RootOf(c.value, n) else Nil), (if c.Some? then c.value else map[]);
    match op
    case Put(k, v) =>
      PutStep(h, n, s, k, v);
      InsertBuffers(h, s.tree, k, v, 0, o, m);
    case Drop(k) =>
      DropStep(h, n, s, k);
      DeleteBuffers(h, s.tree, k, 0, true, o, m);
    case Reset =>
      UnchangeBuffers(h, s.tree, o, m);
    case Commit =>
      CommitRemembers(h, n, s);
  }

  lemma {:induction false} RunRemembers(h: HashFn, n: nat, s: State, c: Option<Dict>, ops: seq<Op>)
    requires Inv(h, n, s) && AllFit(ops, n) && Remembers(h, n, s, c)
    ensures Remembers(h, n, Run(h, n, s, ops), LastCommit(s.dict, c, ops))
    decreases ops
  {
    hide Remembers, Inv;
    if ops != [] {
      StepInv(h, n, s, ops[0]);
      StepRemembers(h, n, s, c, ops[0]);
      RunRemembers(h, n, Step(h, n, s, ops[0]), if ops[0].Commit? then Some(s.dict) else c, ops[1..]);
    }
  }

  lemma InitRemembers(h: HashFn, n: nat)
    requires n > 0
    ensures Inv(h, n, INIT) && Remembers(h, n, INIT, None)
  {
    InitInv(h, n);
  }

  /**
   The commitment a copy answers with, after any run: the one last given out. So it is the right one if
   and only if the map still has the commitment it had then.
   */
  lemma CopyCommitment(h: HashFn, n: nat, ops: seq<Op>)
    requires n > 0 && AllFit(ops, n)
    ensures Inv(h, n, INIT)
    ensures var s, c := Run(h, n, INIT, ops), LastCommit(map[], None, ops);
            && s.dict == Effect(map[], ops) && (c.Some? ==> Under(c.value, [], n))
            && !T.Copy(s.tree).Stale() && T.Cached(T.Copy(s.tree)) == LastBytes(h, n, c)
            && (T.Cached(T.Copy(s.tree)) == HashOf(h, RootOf(s.dict, n)) <==>
                LastBytes(h, n, c) == HashOf(h, RootOf(Effect(map[], ops), n)))
  {
    InitRemembers(h, n);
    RunRemembers(h, n, INIT, None, ops);
    RunEffect(h, n, INIT, ops);
  }

  // ----- the whole copy -----

  /** No node that waits to be rehashed has a buffer of zeros. */
  predicate NoBlank(t: T.Tree)
  {
    match t
    case EmptyLeaf => true
    case DictLeaf(_, _, b) => !(b.stale && b.cache == ZERO)
    case Interior(l, r, b) => !(b.stale && b.cache == ZERO) && NoBlank(l) && NoBlank(r)
  }

  /** A node that waits to be rehashed and has a buffer of zeros. */
  function BlankNode(t: T.Tree): (b: T.Tree)
    requires !NoBlank(t)
    ensures !b.EmptyLeaf? && b.mark.cache == ZERO
  {
    if t.mark.stale && t.mark.cache == ZERO then t
    else if !NoBlank(t.left) then BlankNode(t.left)
    else BlankNode(t.right)
  }

  /** What a blank node gives away if zeros are its hash. */
  function BlankBreak(h: HashFn, t: T.Tree): Evidence
  {
    if NoBlank(t) then Nothing else ZeroPreimage(Preimage(h, BlankNode(t).Shape()))
  }

  lemma {:induction false} BlankDamning(h: HashFn, t: T.Tree)
    requires !NoBlank(t) && CacheOk(h, T.Copy(t))
    ensures Damning(h, BlankBreak(h, t))
  {
    CopyShape(t);
    if !(t.mark.stale && t.mark.cache == ZERO) {
      if !NoBlank(t.left) {
        BlankDamning(h, t.left);
      } else {
        BlankDamning(h, t.right);
      }
    }
  }

  /** With the committed trie back and no node made since, every buffer is right. */
  lemma {:induction false} CopyRight(h: HashFn, t: T.Tree, m: Dict)
    requires CacheOk(h, t) && Buffers(h, t, t.Shape(), m) && LeavesIn(t.Shape(), m) && NoBlank(t)
    ensures CacheOk(h, T.Copy(t))
  {
    CopyShape(t);
    if t.Interior? {
      CopyRight(h, t.left, m);
      CopyRight(h, t.right, m);
      CopyShape(t.left);
      CopyShape(t.right);
    }
  }

  /** Some key of `m` or `m'` on which their tries exhibit a break. */
  ghost predicate Clash(h: HashFn, n: nat, m: Dict, m': Dict)
    requires n > 0 && Under(m, [], n) && Under(m', [], n)
  {
    exists k :: k in m.Keys + m'.Keys && ClashOn(h, n, m, m', k)
  }

  ghost predicate ClashOn(h: HashFn, n: nat, m: Dict, m': Dict, k: Bytes)
    requires n > 0 && Under(m, [], n) && Under(m', [], n)
  {
    && Reaches(RootOf(m, n), k, 0) && Reaches(RootOf(m', n), k, 0)
    && Damning(h, Explain(h, RootOf(m, n), RootOf(m', n), k, 0))
  }

  lemma SameAt(h: HashFn, n: nat, m: Dict, m': Dict, k: Bytes)
    requires n > 0 && Under(m, [], n) && Under(m', [], n) && HashOf(h, RootOf(m, n)) == HashOf(h, RootOf(m', n))
    requires |k| == n
    ensures ClashOn(h, n, m, m', k) || ((k in m <==> k in m') && (k in m ==> m[k] == m'[k]))
  {
    hide Damning, Explain, HashOf, RootOf;
    LookupRootOf(m, k, n);
    LookupRootOf(m', k, n);
    EndSized(RootOf(m, n), k, 0);
    ProofBound(h, RootOf(m, n), m', k, n);
  }

  /** One commitment, one map, or a break. */
  lemma SameCommitmentSameMap(h: HashFn, n: nat, m: Dict, m': Dict)
    requires n > 0 && Under(m, [], n) && Under(m', [], n) && HashOf(h, RootOf(m, n)) == HashOf(h, RootOf(m', n))
    ensures m == m' || Clash(h, n, m, m')
  {
    hide ClashOn, HashOf, RootOf;
    if !Clash(h, n, m, m') {
      forall k | k in m.Keys + m'.Keys
        ensures k in m && k in m' && m[k] == m'[k]
      {
        SameAt(h, n, m, m', k);
      }
      assert m.Keys == m'.Keys;
    }
  }

  lemma CopyRightAgain(h: HashFn, n: nat, s: State)
    requires Inv(h, n, s) && Remembers(h, n, s, Some(s.dict)) && NoBlank(s.tree)
    ensures CacheOk(h, T.Copy(s.tree))
  {
    RootOfLeaves(s.dict, n);
    CopyRight(h, s.tree, s.dict);
  }

  lemma CopyRightOnly(h: HashFn, n: nat, s: State, c: Option<Dict>)
    requires Inv(h, n, s) && Remembers(h, n, s, c) && CacheOk(h, T.Copy(s.tree)) && NoBlank(s.tree)
    ensures c.Some? && Under(c.value, [], n) && (c.value == s.dict || Clash(h, n, c.value, s.dict))
  {
    hide Clash, RootOf, Under, NoBlank;
    CopyShape(s.tree);
    assert c.Some? by { BlankRoot(h, n, s, c); }
    SameCommitmentSameMap(h, n, c.value, s.dict);
  }

  lemma BlankRoot(h: HashFn, n: nat, s: State, c: Option<Dict>)
    requires Remembers(h, n, s, c) && NoBlank(s.tree)
    ensures c.Some?
  {
  }

  /**
   A copy taken after any run has all its hashes right if and only if the map is the one last committed
   to and no stale node has a buffer of zeros, up to an explicit break of the hash function.
   */
  lemma CopyExact(h: HashFn, n: nat, ops: seq<Op>)
    requires n > 0 && AllFit(ops, n)
    ensures Inv(h, n, INIT)
    ensures var s, c := Run(h, n, INIT, ops), LastCommit(map[], None, ops);
            && (c.Some? ==> Under(c.value, [], n)) && Under(s.dict, [], n)
            && (c == Some(s.dict) && NoBlank(s.tree) ==> CacheOk(h, T.Copy(s.tree)))
            && (CacheOk(h, T.Copy(s.tree)) ==>
                  || (c == Some(s.dict) && NoBlank(s.tree))
                  || Damning(h, BlankBreak(h, s.tree))
                  || (c.Some? && Clash(h, n, c.value, s.dict)))
  {
    hide NoBlank, CacheOk, Clash, Damning, BlankBreak;
    InitRemembers(h, n);
    RunRemembers(h, n, INIT, None, ops);
    var s, c := Run(h, n, INIT, ops), LastCommit(map[], None, ops);
    if NoBlank(s.tree) {
      if c == Some(s.dict) {
        CopyRightAgain(h, n, s);
      }
      if CacheOk(h, T.Copy(s.tree)) {
        CopyRightOnly(h, n, s, c);
      }
    } else if CacheOk(h, T.Copy(s.tree)) {
      BlankDamning(h, s.tree);
    }
  }

  /** Putting an entry into an empty dictionary makes a leaf with a buffer of zeros. */
  lemma FirstEntry(h: HashFn, n: nat, s: State, k: Bytes, v: Bytes)
    requires Inv(h, n, s) && s.dict == map[] && |k| == n
    ensures !NoBlank(Step(h, n, s, Put(k, v)).tree)
  {
    PutStep(h, n, s, k, v);
    var b := Bit(k, 0);
    assert Side(map[], [], b, n) == map[];
    assert s.tree.Child(b).EmptyLeaf?;
  }

  /**
   The commitment alone does not decide: after an entry is put, committed to, dropped and put again the
   map and its commitment are the committed ones, but the copy has a leaf with a hash of zeros.
   */
  lemma Reinserted(h: HashFn, n: nat, k: Bytes, v: Bytes)
    requires n > 0 && |k| == n
    ensures Inv(h, n, INIT)
    ensures var ops := [Put(k, v), Commit, Drop(k), Put(k, v)];
            var s := Run(h, n, INIT, ops);
            && LastCommit(map[], None, ops) == Some(s.dict)
            && T.Cached(T.Copy(s.tree)) == HashOf(h, RootOf(s.dict, n))
            && (CacheOk(h, T.Copy(s.tree)) ==> Damning(h, BlankBreak(h, s.tree)))
  {
    hide NoBlank, CacheOk, Damning, BlankBreak, Inv, Step, Run, LastCommit;
    var put, drop := Put(k, v), Drop(k);
    var ops := [put, Commit, drop, put];
    var m: Dict := map[k := v];
    InitInv(h, n);
    var s1 := OneMore(h, n, INIT, None, put, [Commit, drop, put]);
    var s2 := OneMore(h, n, s1, None, Commit, [drop, put]);
    var s3 := OneMore(h, n, s2, Some(m), drop, [put]);
    var s := OneMore(h, n, s3, Some(m), put, []);
    assert s1.dict == m && s3.dict == map[] && s.dict == m;
    assert [put] + [Commit, drop, put] == ops && [Commit] + [drop, put] == [Commit, drop, put];
    assert [drop] + [put] == [drop, put] && [put] + [] == [put];
    NoMore(h, n, s, Some(m));
    FirstEntry(h, n, s3, k, v);
    CopyCommitment(h, n, ops);
    if CacheOk(h, T.Copy(s.tree)) {
      BlankDamning(h, s.tree);
    }
  }

  /** A run, one operation at a time. */
  lemma OneMore(h: HashFn, n: nat, s: State, c: Option<Dict>, op: Op, rest: seq<Op>) returns (s': State)
    requires Inv(h, n, s) && Fits(op, n) && AllFit(rest, n)
    ensures s' == Step(h, n, s, op) && Inv(h, n, s') && AllFit([op] + rest, n)
    ensures s'.dict == match op case Put(k, v) => s.dict[k := v] case Drop(k) => s.dict - {k} case _ => s.dict
    ensures Run(h, n, s, [op] + rest) == Run(h, n, s', rest)
    ensures LastCommit(s.dict, c, [op] + rest) == LastCommit(s'.dict, if op.Commit? then Some(s.dict) else c, rest)
  {
    hide Inv;
    StepInv(h, n, s, op);
    s' := Step(h, n, s, op);
    var ops := [op] + rest;
    assert ops[0] == op && ops[1..] == rest;
  }

  lemma NoMore(h: HashFn, n: nat, s: State, c: Option<Dict>)
    requires Inv(h, n, s)
    ensures Run(h, n, s, []) == s && LastCommit(s.dict, c, []) == c
  {
  }
}
