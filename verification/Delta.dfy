/** Deltas: the changed part of a full trie, its restriction to some keys, and the client's merge. */
module Delta {
  import opened Bits
  import opened Trie
  import T = Tree
  import opened Canonical
  import opened Invariants
  import opened Machine
  import opened Partial
  import B = Binding

  predicate NoNil(t: Trie)
  {
    !t.Nil? && (t.Inner? ==> NoNil(t.left) && NoNil(t.right))
  }

  /** `copyChangesOnlyHelper`. An empty leaf never counts as changed, so it becomes a stub too. */
  function CopyChanges(h: HashFn, t: T.Tree): (u: Trie)
    ensures NoNil(u)
  {
    if !t.Changed() then Stub(HashOf(h, t.Shape()))
    else if t.DictLeaf? then Leaf(t.key, t.value)
    else Inner(CopyChanges(h, t.left), CopyChanges(h, t.right))
  }

  /** `NewDeltaMPT`: the root is always kept. */
  function NewDelta(h: HashFn, t: T.Tree): (u: Trie)
    requires t.Interior?
    ensures NoNil(u)
  {
    Inner(CopyChanges(h, t.left), CopyChanges(h, t.right))
  }

  /** `getUpdatesHelper`: Nil stands for "nothing to send". */
  function Updates(h: HashFn, u: Trie, keys: seq<Bytes>, d: nat): Trie
    requires NoNil(u)
    decreases u
  {
    if u.Stub? then Nil
    else if keys == [] then (if u.Empty? then Empty else Stub(HashOf(h, u)))
    else
      match u
      case Inner(l, r) =>
        Inner(Updates(h, l, Turn(keys, d, false), d + 1), Updates(h, r, Turn(keys, d, true), d + 1))
      case _ => u
  }

  /** `UpdateNode`: where the update says nothing the client keeps what it has. */
  function Merge(p: Trie, u: Trie): Trie
    decreases u
  {
    match u
    case Inner(l, r) =>
      Inner(if l.Nil? then p.Child(false) else Merge(p.Child(false), l),
            if r.Nil? then p.Child(true) else Merge(p.Child(true), r))
    case _ => u
  }

  /** What the client holds at a position after an update `u` that may say nothing. */
  function Kept(p: Trie, u: Trie): Trie { if u.Nil? then p else Merge(p, u) }

  /**
   Every empty leaf that a proof for `keys` shows in the new trie `t` was already an empty leaf at
   that position in the old trie `o` (Nil where `o` has no such position).
   */
  predicate EmptiesOld(o: Trie, t: Trie, keys: seq<Bytes>, d: nat)
    decreases t
  {
    match t
    case Empty => o.Empty?
    case Inner(l, r) =>
      keys == [] ||
      (EmptiesOld(o.Child(false), l, Turn(keys, d, false), d + 1) &&
       EmptiesOld(o.Child(true), r, Turn(keys, d, true), d + 1))
    case _ => true
  }

  /** The same for every empty leaf of `t`, shown or not. */
  predicate AllEmptiesOld(o: Trie, t: Trie)
    decreases t
  {
    match t
    case Empty => o.Empty?
    case Inner(l, r) => AllEmptiesOld(o.Child(false), l) && AllEmptiesOld(o.Child(true), r)
    case _ => true
  }

  lemma {:induction false} DeltaHash(h: HashFn, t: T.Tree)
    ensures HashOf(h, CopyChanges(h, t)) == HashOf(h, t.Shape())
  {
    if t.Changed() && t.Interior? {
      DeltaHash(h, t.left);
      DeltaHash(h, t.right);
    }
  }

  /** Hashing does not change the delta. */
  lemma {:induction false} CopyChangesLasting(h: HashFn, t: T.Tree, u: T.Tree)
    requires Lasting(t) == Lasting(u)
    ensures CopyChanges(h, t) == CopyChanges(h, u)
  {
    LastingSame(u, t, Nil);
    if t.Interior? {
      CopyChangesLasting(h, t.left, u.left);
      CopyChangesLasting(h, t.right, u.right);
    }
  }

  lemma {:induction false} EmptiesOfSelf(t: Trie, keys: seq<Bytes>, d: nat)
    ensures EmptiesOld(t, t, keys, d)
    decreases t
  {
    if t.Inner? {
      EmptiesOfSelf(t.left, Turn(keys, d, false), d + 1);
      EmptiesOfSelf(t.right, Turn(keys, d, true), d + 1);
    }
  }

  /** What the client had at a position: its partial trie there, or no node at all. */
  function Held(h: HashFn, o: Trie, keys: seq<Bytes>, d: nat): Trie
    requires o.Nil? || Covers(o, keys, d)
  {
    if o.Nil? then Nil else CopyPaths(h, o, keys, d)
  }

  /** At an interior node of a delta, the merge is the merge of the two sides. */
  lemma KeptInner(h: HashFn, l: T.Tree, r: T.Tree, o: Trie, keys: seq<Bytes>, d: nat)
    requires keys != [] && (o.Nil? || Covers(o, keys, d))
    ensures forall b :: o.Child(b).Nil? || Covers(o.Child(b), Turn(keys, d, b), d + 1)
    ensures Kept(Held(h, o, keys, d), Updates(h, Inner(CopyChanges(h, l), CopyChanges(h, r)), keys, d)) ==
            Inner(Kept(Held(h, o.Child(false), Turn(keys, d, false), d + 1),
                       Updates(h, CopyChanges(h, l), Turn(keys, d, false), d + 1)),
                  Kept(Held(h, o.Child(true), Turn(keys, d, true), d + 1),
                       Updates(h, CopyChanges(h, r), Turn(keys, d, true), d + 1)))
  {
    hide CopyChanges, HashOf, Turn;
    var p := Held(h, o, keys, d);
    if o.Inner? {
      assert p.left == CopyPaths(h, o.left, Turn(keys, d, false), d + 1);
      assert p.right == CopyPaths(h, o.right, Turn(keys, d, true), d + 1);
    }
  }

  /** The merge of the update for one position is exact. */
  predicate ExactAt(h: HashFn, t: T.Tree, o: Trie, keys: seq<Bytes>, d: nat)
    requires (o.Nil? || Covers(o, keys, d)) && Covers(t.Shape(), keys, d)
  {
    Kept(Held(h, o, keys, d), Updates(h, CopyChanges(h, t), keys, d)) == CopyPaths(h, t.Shape(), keys, d)
  }

  lemma MergeExactInner(h: HashFn, t: T.Tree, o: Trie, keys: seq<Bytes>, d: nat)
    requires t.Interior? && t.Changed() && keys != []
    requires (o.Nil? || Covers(o, keys, d)) && Covers(t.Shape(), keys, d)
    ensures forall b :: o.Child(b).Nil? || Covers(o.Child(b), Turn(keys, d, b), d + 1)
    ensures ExactAt(h, t, o, keys, d) <==>
            ExactAt(h, t.left, o.Child(false), Turn(keys, d, false), d + 1) &&
            ExactAt(h, t.right, o.Child(true), Turn(keys, d, true), d + 1)
  {
    KeptInner(h, t.left, t.right, o, keys, d);
  }

  /** Leaves, unchanged nodes and positions off the keys' paths. */
  lemma MergeExactFlat(h: HashFn, t: T.Tree, o: Trie, keys: seq<Bytes>, d: nat)
    requires FlagsOk(t, o) && (o.Nil? || Covers(o, keys, d)) && Covers(t.Shape(), keys, d)
    requires !t.Changed() || t.DictLeaf? || keys == []
    ensures ExactAt(h, t, o, keys, d) <==> EmptiesOld(o, t.Shape(), keys, d)
  {
    if t.EmptyLeaf? {
    } else if !t.Changed() {
      EmptiesOfSelf(o, keys, d);
    } else {
      DeltaHash(h, t);
    }
  }

  /** One position of the merge: it is exact if and only if the empty leaves shown there are old. */
  lemma {:induction false} MergeExactAt(h: HashFn, t: T.Tree, o: Trie, keys: seq<Bytes>, d: nat, n: nat)
    requires FlagsOk(t, o) && Sized(keys, n)
    requires o.Nil? || Solid(o, d, n)
    requires Solid(t.Shape(), d, n)
    ensures (o.Nil? || Covers(o, keys, d)) && Covers(t.Shape(), keys, d)
    ensures ExactAt(h, t, o, keys, d) <==> EmptiesOld(o, t.Shape(), keys, d)
    decreases t
  {
    hide ExactAt, Turn, Covers;
    if !o.Nil? { SolidCovers(o, keys, d, n); }
    SolidCovers(t.Shape(), keys, d, n);
    if !t.Changed() || t.DictLeaf? || keys == [] {
      MergeExactFlat(h, t, o, keys, d);
    } else {
      MergeExactAt(h, t.left, o.Child(false), Turn(keys, d, false), d + 1, n);
      MergeExactAt(h, t.right, o.Child(true), Turn(keys, d, true), d + 1, n);
      MergeExactInner(h, t, o, keys, d);
    }
  }

  /** The client's tree for `keys` after merging the delta of the trie `t`, if it was the tree of `o` before. */
  function Merged(h: HashFn, t: T.Tree, o: Trie, keys: seq<Bytes>): Trie
    requires t.Interior? && Covers(o, keys, 0)
  {
    Merge(CopyPaths(h, o, keys, 0), Updates(h, NewDelta(h, t), keys, 0))
  }

  lemma MergeExact(h: HashFn, t: T.Tree, o: Trie, keys: seq<Bytes>, n: nat)
    requires t.Interior? && FlagsOk(t, o) && Sized(keys, n) && keys != []
    requires o.Inner? && Solid(o, 0, n) && Solid(t.Shape(), 0, n)
    ensures Covers(o, keys, 0) && Covers(t.Shape(), keys, 0)
    ensures Merged(h, t, o, keys) == CopyPaths(h, t.Shape(), keys, 0) <==> EmptiesOld(o, t.Shape(), keys, 0)
  {
    var marked := RootChanged(t);
    assert marked.Shape() == t.Shape() && CopyChanges(h, marked) == NewDelta(h, t);
    MergeExactAt(h, marked, o, keys, 0, n);
  }

  // ----- the commitment of the merged tree -----

  /** The client has the right hash at a position. */
  predicate SameHashAt(h: HashFn, t: T.Tree, o: Trie, keys: seq<Bytes>, d: nat)
    requires (o.Nil? || Covers(o, keys, d)) && Covers(t.Shape(), keys, d)
  {
    HashOf(h, Kept(Held(h, o, keys, d), Updates(h, CopyChanges(h, t), keys, d))) ==
    HashOf(h, CopyPaths(h, t.Shape(), keys, d))
  }

  /** The break that a merged tree exhibits if it lost an empty leaf and still has the right hash. */
  function LostBreak(h: HashFn, t: T.Tree, o: Trie, keys: seq<Bytes>, d: nat): B.Evidence
    requires (o.Nil? || Covers(o, keys, d)) && Covers(t.Shape(), keys, d)
    decreases t
  {
    if t.EmptyLeaf? then (if o.Leaf? || o.Inner? then B.ZeroPreimage(Preimage(h, o)) else B.Nothing)
    else if !t.Changed() || t.DictLeaf? || keys == [] then B.Nothing
    else
      KeptInner(h, t.left, t.right, o, keys, d);
      var kept := Kept(Held(h, o, keys, d), Updates(h, CopyChanges(h, t), keys, d));
      var right := CopyPaths(h, t.Shape(), keys, d);
      if Preimage(h, kept) != Preimage(h, right) then B.Collision(Preimage(h, kept), Preimage(h, right))
      else if !EmptiesOld(o.Child(false), t.left.Shape(), Turn(keys, d, false), d + 1)
      then LostBreak(h, t.left, o.Child(false), Turn(keys, d, false), d + 1)
      else LostBreak(h, t.right, o.Child(true), Turn(keys, d, true), d + 1)
  }

  /** What the client has at a position hashes to 32 bytes, or to none if it has nothing. */
  lemma KeptHashLength(h: HashFn, t: T.Tree, o: Trie, keys: seq<Bytes>, d: nat, n: nat)
    requires (o.Nil? || Covers(o, keys, d)) && (o.Nil? || Solid(o, d, n))
    ensures |HashOf(h, Kept(Held(h, o, keys, d), Updates(h, CopyChanges(h, t), keys, d)))| <= 32
  {
    if !o.Nil? {
      CopyHash(h, o, keys, d);
    }
    DeltaHash(h, t);
  }

  /** A lost empty leaf at a flat position: what the client kept there would have the hash of zeros. */
  lemma LostFlat(h: HashFn, t: T.Tree, o: Trie, keys: seq<Bytes>, d: nat, n: nat)
    requires FlagsOk(t, o) && (o.Nil? || (Covers(o, keys, d) && Solid(o, d, n))) && Covers(t.Shape(), keys, d)
    requires !t.Changed() || t.DictLeaf? || keys == []
    requires !EmptiesOld(o, t.Shape(), keys, d)
    requires SameHashAt(h, t, o, keys, d)
    ensures B.Damning(h, LostBreak(h, t, o, keys, d))
  {
    EmptiesOfSelf(o, keys, d);
    if !o.Nil? {
      CopyHash(h, o, keys, d);
    }
  }

  /** Halves of one string, where neither first half nor second is longer than 32 bytes. */
  lemma Halves(a: Bytes, b: Bytes, c: Bytes, d: Bytes)
    requires a + b == c + d && |a| <= 32 && |b| <= 32 && |c| == |d| == 32
    ensures a == c && b == d
  {
    assert |a| + |b| == |a + b| == |c + d| == 64;
    B.SameHalf(a, b, c, d, false);
    B.SameHalf(a, b, c, d, true);
  }

  lemma {:induction false} LostAt(h: HashFn, t: T.Tree, o: Trie, keys: seq<Bytes>, d: nat, n: nat)
    requires FlagsOk(t, o) && Sized(keys, n) && (o.Nil? || Solid(o, d, n)) && Solid(t.Shape(), d, n)
    requires (o.Nil? || Covers(o, keys, d)) && Covers(t.Shape(), keys, d)
    requires !EmptiesOld(o, t.Shape(), keys, d)
    requires SameHashAt(h, t, o, keys, d)
    ensures B.Damning(h, LostBreak(h, t, o, keys, d))
    decreases t
  {
    if !t.Changed() || t.DictLeaf? || keys == [] {
      LostFlat(h, t, o, keys, d, n);
    } else {
      hide Turn, Covers, Kept, Held, Updates, CopyPaths, CopyChanges;
      var ks := (b: bool) => Turn(keys, d, b);
      SolidCovers(t.left.Shape(), ks(false), d + 1, n);
      SolidCovers(t.right.Shape(), ks(true), d + 1, n);
      LostInner(h, t, o, keys, d, n);
      if B.Damning(h, LostBreak(h, t, o, keys, d)) {
      } else if !EmptiesOld(o.Child(false), t.left.Shape(), ks(false), d + 1) {
        LostAt(h, t.left, o.Child(false), ks(false), d + 1, n);
      } else {
        LostAt(h, t.right, o.Child(true), ks(true), d + 1, n);
      }
    }
  }

  /** At an interior node: a collision, or the hashes of both sides are right and the break is below. */
  lemma LostInner(h: HashFn, t: T.Tree, o: Trie, keys: seq<Bytes>, d: nat, n: nat)
    requires t.Interior? && t.Changed() && keys != []
    requires (o.Nil? || (Covers(o, keys, d) && Solid(o, d, n))) && Solid(t.Shape(), d, n) && Covers(t.Shape(), keys, d)
    requires SameHashAt(h, t, o, keys, d)
    ensures forall b :: o.Child(b).Nil? || Covers(o.Child(b), Turn(keys, d, b), d + 1)
    ensures Covers(t.left.Shape(), Turn(keys, d, false), d + 1) && Covers(t.right.Shape(), Turn(keys, d, true), d + 1)
    ensures || B.Damning(h, LostBreak(h, t, o, keys, d))
            || (&& LostBreak(h, t, o, keys, d) ==
                   (if !EmptiesOld(o.Child(false), t.left.Shape(), Turn(keys, d, false), d + 1)
                    then LostBreak(h, t.left, o.Child(false), Turn(keys, d, false), d + 1)
                    else LostBreak(h, t.right, o.Child(true), Turn(keys, d, true), d + 1))
                && SameHashAt(h, t.left, o.Child(false), Turn(keys, d, false), d + 1)
                && SameHashAt(h, t.right, o.Child(true), Turn(keys, d, true), d + 1))
  {
    hide Turn, Updates, EmptiesOld, CopyChanges, Solid;
    KeptInner(h, t.left, t.right, o, keys, d);
    var kept := Kept(Held(h, o, keys, d), Updates(h, CopyChanges(h, t), keys, d));
    var right := CopyPaths(h, t.Shape(), keys, d);
    assert CopyChanges(h, t) == Inner(CopyChanges(h, t.left), CopyChanges(h, t.right)) by { ChangedInner(h, t); }
    if Preimage(h, kept) == Preimage(h, right) {
      SolidChild(o, d, n);
      KeptHashLength(h, t.left, o.Child(false), Turn(keys, d, false), d + 1, n);
      KeptHashLength(h, t.right, o.Child(true), Turn(keys, d, true), d + 1, n);
      FullHash(h, t.left, Turn(keys, d, false), d + 1);
      FullHash(h, t.right, Turn(keys, d, true), d + 1);
      Halves(HashOf(h, kept.left), HashOf(h, kept.right), HashOf(h, right.left), HashOf(h, right.right));
    }
  }

  lemma ChangedInner(h: HashFn, t: T.Tree)
    requires t.Interior? && t.Changed()
    ensures CopyChanges(h, t) == Inner(CopyChanges(h, t.left), CopyChanges(h, t.right))
  {
  }

  lemma SolidChild(o: Trie, d: nat, n: nat)
    requires o.Nil? || Solid(o, d, n)
    ensures forall b :: o.Child(b).Nil? || Solid(o.Child(b), d + 1, n)
  {
  }

  lemma FullHash(h: HashFn, t: T.Tree, keys: seq<Bytes>, d: nat)
    requires Covers(t.Shape(), keys, d)
    ensures |HashOf(h, CopyPaths(h, t.Shape(), keys, d))| == 32
  {
    CopyHash(h, t.Shape(), keys, d);
  }

  // ----- over runs -----

  ghost predicate NoReset(ops: seq<Op>)
  {
    forall i :: 0 <= i < |ops| ==> !ops[i].Reset?
  }

  lemma {:induction false} BaseStays(h: HashFn, n: nat, s: State, ops: seq<Op>)
    requires Inv(h, n, s) && AllFit(ops, n) && NoReset(ops)
    ensures Run(h, n, s, ops).base == s.base
    decreases ops
  {
    if ops != [] {
      StepInv(h, n, s, ops[0]);
      BaseStays(h, n, Step(h, n, s, ops[0]), ops[1..]);
    }
  }

  /** The state after a reset and a run of further operations. */
  ghost function Epoch(h: HashFn, n: nat, s: State, ops: seq<Op>): (s': State)
    requires Inv(h, n, s) && AllFit(ops, n)
    ensures Inv(h, n, s')
  {
    StepInv(h, n, s, Reset);
    Run(h, n, Step(h, n, s, Reset), ops)
  }

  /**
   For every run after a reset and every nonempty key set, merging the updates into the old proof
   gives exactly the proof taken from the new trie if and only if no empty leaf it shows is new.
   */
  lemma EpochExact(h: HashFn, n: nat, s: State, ops: seq<Op>, keys: seq<Bytes>)
    requires Inv(h, n, s) && AllFit(ops, n) && NoReset(ops) && Sized(keys, n) && keys != []
    ensures var s' := Epoch(h, n, s, ops);
            var o, t := RootOf(s.dict, n), RootOf(s'.dict, n);
            && Covers(o, keys, 0) && Covers(t, keys, 0)
            && (Merged(h, s'.tree, o, keys) == CopyPaths(h, t, keys, 0) <==> EmptiesOld(o, t, keys, 0))
            && HashOf(h, CopyPaths(h, t, keys, 0)) == HashOf(h, t)
  {
    StepInv(h, n, s, Reset);
    BaseStays(h, n, Step(h, n, s, Reset), ops);
    var s' := Epoch(h, n, s, ops);
    RootOfCovers(s.dict, keys, n);
    RootOfCovers(s'.dict, keys, n);
    MergeExact(h, s'.tree, s.tree.Shape(), keys, n);
    CopyHash(h, RootOf(s'.dict, n), keys, 0);
  }

  /** The trie with its root marked changed, as a delta always has it. */
  function RootChanged(t: T.Tree): T.Tree
    requires t.Interior?
  {
    T.Interior(t.left, t.right, t.mark.(changed := true))
  }

  lemma LostAtRoot(h: HashFn, t: T.Tree, o: Trie, keys: seq<Bytes>, n: nat)
    requires t.Interior? && FlagsOk(t, o) && Sized(keys, n) && keys != []
    requires o.Inner? && Solid(o, 0, n) && Solid(t.Shape(), 0, n)
    ensures Covers(o, keys, 0) && Covers(t.Shape(), keys, 0) && RootChanged(t).Shape() == t.Shape()
    ensures HashOf(h, Merged(h, t, o, keys)) == HashOf(h, t.Shape()) ==>
              EmptiesOld(o, t.Shape(), keys, 0) || B.Damning(h, LostBreak(h, RootChanged(t), o, keys, 0))
  {
    var marked := RootChanged(t);
    assert marked.Shape() == t.Shape() && CopyChanges(h, marked) == NewDelta(h, t);
    SolidCovers(o, keys, 0, n);
    SolidCovers(t.Shape(), keys, 0, n);
    CopyHash(h, t.Shape(), keys, 0);
    if HashOf(h, Merged(h, t, o, keys)) == HashOf(h, t.Shape()) && !EmptiesOld(o, t.Shape(), keys, 0) {
      LostAt(h, marked, o, keys, 0, n);
    }
  }

  /**
   A client always notices a lost empty leaf: the merged tree has the commitment of the new trie if and
   only if no empty leaf it shows is new, up to an explicit collision or preimage of the zero hash.
   */
  lemma EpochNoticed(h: HashFn, n: nat, s: State, ops: seq<Op>, keys: seq<Bytes>)
    requires Inv(h, n, s) && AllFit(ops, n) && NoReset(ops) && Sized(keys, n) && keys != []
    ensures var s' := Epoch(h, n, s, ops);
            var o, t := RootOf(s.dict, n), RootOf(s'.dict, n);
            && Covers(o, keys, 0) && Covers(t, keys, 0) && RootChanged(s'.tree).Shape() == t
            && (EmptiesOld(o, t, keys, 0) ==> HashOf(h, Merged(h, s'.tree, o, keys)) == HashOf(h, t))
            && (HashOf(h, Merged(h, s'.tree, o, keys)) == HashOf(h, t) ==>
                  EmptiesOld(o, t, keys, 0) || B.Damning(h, LostBreak(h, RootChanged(s'.tree), o, keys, 0)))
  {
    hide EmptiesOld, Merged, B.Damning, LostBreak, HashOf, CopyPaths, Covers;
    EpochExact(h, n, s, ops, keys);
    StepInv(h, n, s, Reset);
    BaseStays(h, n, Step(h, n, s, Reset), ops);
    var s' := Epoch(h, n, s, ops);
    RootOfCovers(s.dict, keys, n);
    RootOfCovers(s'.dict, keys, n);
    LostAtRoot(h, s'.tree, s.tree.Shape(), keys, n);
  }

  lemma {:induction false} AllEmptiesSuffice(o: Trie, t: Trie, keys: seq<Bytes>, d: nat)
    requires AllEmptiesOld(o, t)
    ensures EmptiesOld(o, t, keys, d)
    decreases t
  {
    if t.Inner? {
      AllEmptiesSuffice(o.Child(false), t.left, Turn(keys, d, false), d + 1);
      AllEmptiesSuffice(o.Child(true), t.right, Turn(keys, d, true), d + 1);
    }
  }

  /** A proof for all the keys shows every empty leaf. */
  lemma {:induction false} AllEmptiesNeeded(o: Trie, m: Dict, keys: seq<Bytes>, p: Path, n: nat)
    requires Under(m, p, n) && forall k :: k in m ==> k in keys
    requires EmptiesOld(o, TrieOf(m, p, n), keys, |p|)
    ensures AllEmptiesOld(o, TrieOf(m, p, n))
    decreases 8 * n - |p|
  {
    if |m| >= 2 {
      TwoKeys(m, p, n);
      assert TheKey(m) in keys;
      AllEmptiesNeeded(o.Child(false), Side(m, p, false, n), Turn(keys, |p|, false), p + [false], n);
      AllEmptiesNeeded(o.Child(true), Side(m, p, true, n), Turn(keys, |p|, true), p + [true], n);
    }
  }

  lemma AllEmptiesAtRoot(o: Trie, m: Dict, all: seq<Bytes>, n: nat)
    requires Under(m, [], n) && n > 0 && all != [] && (forall k :: k in m ==> k in all)
    ensures EmptiesOld(o, RootOf(m, n), all, 0) <==> AllEmptiesOld(o, RootOf(m, n))
  {
    hide TrieOf, Turn;
    if EmptiesOld(o, RootOf(m, n), all, 0) {
      AllEmptiesNeeded(o.Child(false), Side(m, [], false, n), Turn(all, 0, false), [false], n);
      AllEmptiesNeeded(o.Child(true), Side(m, [], true, n), Turn(all, 0, true), [true], n);
    }
    if AllEmptiesOld(o, RootOf(m, n)) {
      AllEmptiesSuffice(o, RootOf(m, n), all, 0);
    }
  }

  /** The delta of `s'` brings a client for `keys` from the trie of `m` to the trie of `s'`. */
  ghost predicate Serves(h: HashFn, n: nat, m: Dict, s': State, keys: seq<Bytes>)
    requires Under(m, [], n) && n > 0 && Inv(h, n, s') && Sized(keys, n)
  {
    RootOfCovers(m, keys, n);
    RootOfCovers(s'.dict, keys, n);
    Merged(h, s'.tree, RootOf(m, n), keys) == CopyPaths(h, RootOf(s'.dict, n), keys, 0)
  }

  /** Deltas serve every client if and only if no empty leaf of the new trie is new. */
  lemma EveryClientExact(h: HashFn, n: nat, s: State, ops: seq<Op>, all: seq<Bytes>)
    requires Inv(h, n, s) && AllFit(ops, n) && NoReset(ops) && Sized(all, n) && all != []
    requires forall k :: k in Epoch(h, n, s, ops).dict ==> k in all
    ensures var s' := Epoch(h, n, s, ops);
            (forall keys :: Sized(keys, n) && keys != [] ==> Serves(h, n, s.dict, s', keys))
            <==> AllEmptiesOld(RootOf(s.dict, n), RootOf(s'.dict, n))
  {
    var s' := Epoch(h, n, s, ops);
    var o, t := RootOf(s.dict, n), RootOf(s'.dict, n);
    EpochExact(h, n, s, ops, all);
    AllEmptiesAtRoot(o, s'.dict, all, n);
    if AllEmptiesOld(o, t) {
      forall keys | Sized(keys, n) && keys != []
        ensures Serves(h, n, s.dict, s', keys)
      {
        AllEmptiesSuffice(o, t, keys, 0);
        EpochExact(h, n, s, ops, keys);
      }
    } else {
      assert !Serves(h, n, s.dict, s', all);
    }
  }

  /**
   For every key set, the delta `u` leads from the proof of `m` to the proof of `m'` exactly when no
   shown empty leaf is new.
   */
  ghost predicate Bridges(h: HashFn, n: nat, m: Dict, m': Dict, u: Trie)
  {
    && n > 0 && Under(m, [], n) && Under(m', [], n) && NoNil(u)
    && forall keys :: Sized(keys, n) && keys != [] ==>
         && Covers(RootOf(m, n), keys, 0) && Covers(RootOf(m', n), keys, 0)
         && (Merge(CopyPaths(h, RootOf(m, n), keys, 0), Updates(h, u, keys, 0)) == CopyPaths(h, RootOf(m', n), keys, 0)
             <==> EmptiesOld(RootOf(m, n), RootOf(m', n), keys, 0))
  }

  /** The delta of any reachable trie bridges from the map at its last reset. */
  lemma DeltaBridges(h: HashFn, n: nat, s: State, m: Dict)
    requires Inv(h, n, s) && Under(m, [], n) && s.base == RootOf(m, n)
    ensures s.tree.Interior? && Bridges(h, n, m, s.dict, NewDelta(h, s.tree))
  {
    hide EmptiesOld, Merge, CopyPaths, Updates, RootOf;
    forall keys | Sized(keys, n) && keys != []
      ensures Covers(RootOf(m, n), keys, 0) && Covers(RootOf(s.dict, n), keys, 0)
      ensures Merge(CopyPaths(h, RootOf(m, n), keys, 0), Updates(h, NewDelta(h, s.tree), keys, 0)) ==
              CopyPaths(h, RootOf(s.dict, n), keys, 0) <==>
              EmptiesOld(RootOf(m, n), RootOf(s.dict, n), keys, 0)
    {
      RootOfCovers(m, keys, n);
      RootOfCovers(s.dict, keys, n);
      MergeExact(h, s.tree, RootOf(m, n), keys, n);
    }
  }

  /** `u` bridges to `m'` from whatever map has the trie `o`. */
  ghost predicate BridgesFrom(h: HashFn, n: nat, o: Trie, m': Dict, u: Trie)
  {
    n > 0 && forall m: Dict :: Under(m, [], n) && RootOf(m, n) == o ==> Bridges(h, n, m, m', u)
  }

  lemma DeltaBridgesFrom(h: HashFn, n: nat, s: State)
    requires Inv(h, n, s)
    ensures s.tree.Interior? && BridgesFrom(h, n, s.base, s.dict, NewDelta(h, s.tree))
  {
    hide Bridges;
    forall m | Under(m, [], n) && RootOf(m, n) == s.base
      ensures Bridges(h, n, m, s.dict, NewDelta(h, s.tree))
    {
      DeltaBridges(h, n, s, m);
    }
  }

  /**
   Whatever map has the trie `o`, the update `u` takes its proof for `keys` to the proof of `m'` exactly
   when no shown empty leaf is new.
   */
  ghost predicate LeadsTo(h: HashFn, n: nat, o: Trie, m': Dict, keys: seq<Bytes>, u: Trie)
  {
    && n > 0 && Under(m', [], n)
    && forall m: Dict :: Under(m, [], n) && RootOf(m, n) == o ==>
         && Covers(o, keys, 0) && Covers(RootOf(m', n), keys, 0)
         && (Merge(CopyPaths(h, o, keys, 0), u) == CopyPaths(h, RootOf(m', n), keys, 0) <==>
             EmptiesOld(o, RootOf(m', n), keys, 0))
  }

  lemma BridgeLeads(h: HashFn, n: nat, o: Trie, m': Dict, u: Trie, keys: seq<Bytes>)
    requires BridgesFrom(h, n, o, m', u) && Under(m', [], n) && NoNil(u) && Sized(keys, n) && keys != []
    ensures LeadsTo(h, n, o, m', keys, Updates(h, u, keys, 0))
  {
    hide Merge, CopyPaths, Updates, EmptiesOld, RootOf, Covers, Under;
    forall m: Dict | Under(m, [], n) && RootOf(m, n) == o
      ensures Covers(o, keys, 0) && Covers(RootOf(m', n), keys, 0)
      ensures Merge(CopyPaths(h, o, keys, 0), Updates(h, u, keys, 0)) == CopyPaths(h, RootOf(m', n), keys, 0) <==>
              EmptiesOld(o, RootOf(m', n), keys, 0)
    {
      assert Bridges(h, n, m, m', u);
    }
  }

  // ----- when the condition holds, and an input on which it fails -----

  /** Overwriting values of keys that are already there creates no empty leaf. */
  lemma {:induction false} SameKeysSameEmpties(m: Dict, m': Dict, p: Path, n: nat)
    requires Under(m, p, n) && Under(m', p, n) && m.Keys == m'.Keys
    ensures AllEmptiesOld(TrieOf(m, p, n), TrieOf(m', p, n))
    decreases 8 * n - |p|
  {
    assert |m| == |m.Keys| == |m'.Keys| == |m'|;
    if |m| >= 2 {
      TwoKeys(m, p, n);
      forall b: bool
        ensures Side(m, p, b, n).Keys == Side(m', p, b, n).Keys
      {
        assert forall k :: k in Side(m, p, b, n) <==> k in m.Keys && Bit(k, |p|) == b;
        assert forall k :: k in Side(m', p, b, n) <==> k in m'.Keys && Bit(k, |p|) == b;
      }
      SameKeysSameEmpties(Side(m, p, false, n), Side(m', p, false, n), p + [false], n);
      SameKeysSameEmpties(Side(m, p, true, n), Side(m', p, true, n), p + [true], n);
    }
  }

  /** An epoch that ends with the keys it began with serves every client. */
  lemma SameKeysServe(h: HashFn, n: nat, s: State, ops: seq<Op>, keys: seq<Bytes>)
    requires Inv(h, n, s) && AllFit(ops, n) && NoReset(ops) && Sized(keys, n) && keys != []
    requires Epoch(h, n, s, ops).dict.Keys == s.dict.Keys
    ensures Serves(h, n, s.dict, Epoch(h, n, s, ops), keys)
  {
    hide CopyPaths, Updates, Merge, Covers, EmptiesOld, AllEmptiesOld;
    var s' := Epoch(h, n, s, ops);
    SameKeysAtRoot(s.dict, s'.dict, n);
    AllEmptiesSuffice(RootOf(s.dict, n), RootOf(s'.dict, n), keys, 0);
    EpochExact(h, n, s, ops, keys);
  }

  lemma SameKeysAtRoot(m: Dict, m': Dict, n: nat)
    requires n > 0 && Under(m, [], n) && Under(m', [], n) && m.Keys == m'.Keys
    ensures AllEmptiesOld(RootOf(m, n), RootOf(m', n))
  {
    forall b: bool
      ensures Side(m, [], b, n).Keys == Side(m', [], b, n).Keys
    {
      assert forall k :: k in Side(m, [], b, n) <==> k in m.Keys && Bit(k, 0) == b;
      assert forall k :: k in Side(m', [], b, n) <==> k in m'.Keys && Bit(k, 0) == b;
    }
    SameKeysSameEmpties(Side(m, [], false, n), Side(m', [], false, n), [false], n);
    SameKeysSameEmpties(Side(m, [], true, n), Side(m', [], true, n), [true], n);
  }

  lemma RunOne(h: HashFn, n: nat, s: State, op: Op)
    requires Inv(h, n, s) && Fits(op, n)
    ensures Run(h, n, s, [op]) == Step(h, n, s, op)
  {
    StepInv(h, n, s, op);
    assert [op][1..] == [];
  }

  /** Both keys of `m` go the same way twice, so the fork at `[x]` has an empty leaf where the old trie had no node. */
  lemma DeepForkShape(m: Dict, a: Bytes, b: Bytes, n: nat)
    requires m.Keys == {a, b} && a != b && n > 0 && |a| == |b| == n
    requires Bit(a, 0) == Bit(b, 0) && Bit(a, 1) == Bit(b, 1)
    ensures Under(m, [], n)
    ensures RootOf(m, n).Child(Bit(a, 0)).Inner?
    ensures RootOf(m, n).Child(Bit(a, 0)).Child(!Bit(a, 1)).Empty?
  {
    hide Bit;
    var x := Bit(a, 0);
    var s := Side(m, [], x, n);
    assert s.Keys == {a, b};
    assert [] + [x] == [x];
    assert RootOf(m, n).Child(x) == TrieOf(s, [x], n);
    ForkShape(s, [x], a, b, n);
  }

  /** The fork of two keys that go the same way at it has an empty leaf on the other side. */
  lemma ForkShape(s: Dict, p: Path, a: Bytes, b: Bytes, n: nat)
    requires s.Keys == {a, b} && a != b && Under(s, p, n) && |p| < 8 * n && On(a, p, n) && On(b, p, n)
    requires Bit(a, |p|) == Bit(b, |p|)
    ensures TrieOf(s, p, n).Inner? && TrieOf(s, p, n).Child(!Bit(a, |p|)).Empty?
  {
    hide Bit;
    var y := Bit(a, |p|);
    assert |s| == |s.Keys| == 2;
    assert Side(s, p, !y, n) == map[];
    assert TrieOf(s, p, n).Child(!y) == TrieOf(Side(s, p, !y, n), p + [!y], n);
  }

  lemma LoneLeafShape(m: Dict, a: Bytes, n: nat)
    requires m.Keys == {a} && n > 0 && |a| == n
    ensures Under(m, [], n) && RootOf(m, n).Child(Bit(a, 0)).Leaf?
  {
    var s := Side(m, [], Bit(a, 0), n);
    assert s.Keys == {a};
    assert |s| == |s.Keys| == 1;
    assert RootOf(m, n).Child(Bit(a, 0)) == TrieOf(s, [Bit(a, 0)], n);
  }

  lemma NewForkShown(o: Trie, t: Trie, a: Bytes)
    requires |a| > 0 && t.Inner? && t.Child(Bit(a, 0)).Inner? && o.Child(Bit(a, 0)).Leaf?
    requires t.Child(Bit(a, 0)).Child(!Bit(a, 1)).Empty?
    ensures !EmptiesOld(o, t, [a], 0)
  {
    var x := Bit(a, 0);
    assert a in Turn([a], 0, x);
    assert !EmptiesOld(o.Child(x), t.Child(x), Turn([a], 0, x), 1);
  }

  /**
   A split that pushes two keys down more than one level creates an empty leaf that no delta
   carries, and the client that tracks one of the keys is left with a nil child.
   */
  lemma DeepSplitIsLost(h: HashFn, n: nat, s: State, a: Bytes, b: Bytes, v: Bytes)
    requires Inv(h, n, s) && s.dict.Keys == {a} && |b| == n && a != b
    requires Bit(a, 0) == Bit(b, 0) && Bit(a, 1) == Bit(b, 1)
    ensures !Serves(h, n, s.dict, Epoch(h, n, s, [Put(b, v)]), [a])
  {
    StepInv(h, n, s, Reset);
    RunOne(h, n, Step(h, n, s, Reset), Put(b, v));
    var m := s.dict[b := v];
    assert Epoch(h, n, s, [Put(b, v)]).dict == m;
    LoneLeafShape(s.dict, a, n);
    DeepForkShape(m, a, b, n);
    EpochExact(h, n, s, [Put(b, v)], [a]);
    NewForkShown(RootOf(s.dict, n), RootOf(m, n), a);
  }

  /** A run of the server that does this: keys 00000000 and 00100000. */
  lemma DeepSplitHappens(h: HashFn, u: Bytes, v: Bytes)
    ensures Inv(h, 1, INIT)
    ensures var s := Run(h, 1, INIT, [Put([0], u)]);
            !Serves(h, 1, s.dict, Epoch(h, 1, s, [Put([32], v)]), [[0]])
  {
    InitInv(h, 1);
    RunOne(h, 1, INIT, Put([0], u));
    var a: Bytes, b: Bytes := [0], [32];
    assert Bit(a, 0) == Bit(b, 0) && Bit(a, 1) == Bit(b, 1);
    DeepSplitIsLost(h, 1, Run(h, 1, INIT, [Put([0], u)]), a, b, v);
  }

  // ----- a client over many epochs -----

  /** The server's state at each delta: a run of operations without a reset, then the next. */
  ghost predicate EpochsFit(epochs: seq<seq<Op>>, n: nat)
  {
    forall i :: 0 <= i < |epochs| ==> AllFit(epochs[i], n) && NoReset(epochs[i])
  }

  ghost function ServerAfter(h: HashFn, n: nat, s: State, epochs: seq<seq<Op>>): (s': State)
    requires Inv(h, n, s) && EpochsFit(epochs, n)
    ensures Inv(h, n, s')
    decreases epochs
  {
    if epochs == [] then s else ServerAfter(h, n, Epoch(h, n, s, epochs[0]), epochs[1..])
  }

  /** The client merges the delta of each epoch and sees nothing else of the server. */
  ghost function ClientAfter(h: HashFn, n: nat, s: State, epochs: seq<seq<Op>>, keys: seq<Bytes>, p: Trie): Trie
    requires Inv(h, n, s) && EpochsFit(epochs, n)
    decreases epochs
  {
    if epochs == [] then p
    else
      var s' := Epoch(h, n, s, epochs[0]);
      ClientAfter(h, n, s', epochs[1..], keys, Merge(p, Updates(h, NewDelta(h, s'.tree), keys, 0)))
  }

  /** Each epoch shows the client no new empty leaf. */
  ghost predicate Steady(h: HashFn, n: nat, s: State, epochs: seq<seq<Op>>, keys: seq<Bytes>)
    requires Inv(h, n, s) && EpochsFit(epochs, n)
    decreases epochs
  {
    epochs == [] ||
    (var s' := Epoch(h, n, s, epochs[0]);
     EmptiesOld(RootOf(s.dict, n), RootOf(s'.dict, n), keys, 0) && Steady(h, n, s', epochs[1..], keys))
  }

  /** After every epoch the client's tree is the proof it would get by asking anew. */
  ghost predicate AlwaysInSync(h: HashFn, n: nat, s: State, epochs: seq<seq<Op>>, keys: seq<Bytes>, p: Trie)
    requires Inv(h, n, s) && EpochsFit(epochs, n) && Sized(keys, n)
    decreases epochs
  {
    RootOfCovers(s.dict, keys, n);
    && p == CopyPaths(h, RootOf(s.dict, n), keys, 0)
    && (epochs != [] ==>
          var s' := Epoch(h, n, s, epochs[0]);
          AlwaysInSync(h, n, s', epochs[1..], keys, Merge(p, Updates(h, NewDelta(h, s'.tree), keys, 0))))
  }

  /**
   A client that merges one delta per epoch is in sync after every epoch if and only if no epoch
   shows it a new empty leaf, and then it ends with the proof of the server's last trie.
   */
  lemma {:induction false} ClientInSync(h: HashFn, n: nat, s: State, epochs: seq<seq<Op>>, keys: seq<Bytes>)
    requires Inv(h, n, s) && EpochsFit(epochs, n) && Sized(keys, n) && keys != []
    ensures Covers(RootOf(s.dict, n), keys, 0)
    ensures AlwaysInSync(h, n, s, epochs, keys, CopyPaths(h, RootOf(s.dict, n), keys, 0)) <==>
            Steady(h, n, s, epochs, keys)
    ensures var s' := ServerAfter(h, n, s, epochs);
            && Covers(RootOf(s'.dict, n), keys, 0)
            && (Steady(h, n, s, epochs, keys) ==>
                  ClientAfter(h, n, s, epochs, keys, CopyPaths(h, RootOf(s.dict, n), keys, 0)) ==
                  CopyPaths(h, RootOf(s'.dict, n), keys, 0))
    decreases epochs
  {
    hide CopyPaths, Updates, Merge, EmptiesOld, Covers, NewDelta, Inv, RootOf;
    InvParts(h, n, s);
    RootOfCovers(s.dict, keys, n);
    if epochs != [] {
      EpochExact(h, n, s, epochs[0], keys);
      ClientInSync(h, n, Epoch(h, n, s, epochs[0]), epochs[1..], keys);
    }
  }

  // ----- as the code runs it -----

  /** No key runs out of bits on the way down `u`. */
  predicate InRange(u: Trie, keys: seq<Bytes>, d: nat)
  {
    u.Inner? && keys != [] ==>
      Long(keys, d) && InRange(u.left, Turn(keys, d, false), d + 1) && InRange(u.right, Turn(keys, d, true), d + 1)
  }

  /** A delta as the server keeps it: no nil child, and no interior node deeper than an `n`-byte key has bits. */
  predicate Shallow(u: Trie, d: nat, n: nat)
  {
    !u.Nil? && (u.Inner? ==> d < 8 * n && Shallow(u.left, d + 1, n) && Shallow(u.right, d + 1, n))
  }

  lemma {:induction false} ShallowInRange(u: Trie, keys: seq<Bytes>, d: nat, n: nat)
    requires Shallow(u, d, n) && Sized(keys, n)
    ensures NoNil(u) && InRange(u, keys, d)
    decreases u
  {
    if u.Inner? {
      ShallowInRange(u.left, Turn(keys, d, false), d + 1, n);
      ShallowInRange(u.right, Turn(keys, d, true), d + 1, n);
    }
  }

  lemma {:induction false} ChangesShallow(h: HashFn, t: T.Tree, d: nat, n: nat)
    requires Solid(t.Shape(), d, n)
    ensures Shallow(CopyChanges(h, t), d, n)
    decreases t
  {
    if t.Interior? {
      ChangesShallow(h, t.left, d + 1, n);
      ChangesShallow(h, t.right, d + 1, n);
    }
  }

  /** Every delta of a reachable trie can be restricted to any keys of the right length. */
  lemma DeltaShallow(h: HashFn, n: nat, s: State)
    requires Inv(h, n, s)
    ensures s.tree.Interior? && Shallow(NewDelta(h, s.tree), 0, n)
  {
    RootOfCovers(s.dict, [], n);
    ChangesShallow(h, s.tree.left, 1, n);
    ChangesShallow(h, s.tree.right, 1, n);
  }

  /** `getUpdatesHelper` with its partition loop. */
  method GetUpdates(h: HashFn, keys: seq<Bytes>, u: Trie, d: nat) returns (r: Trie)
    requires NoNil(u) && InRange(u, keys, d)
    ensures r == Updates(h, u, keys, d)
    decreases u
  {
    if u.Stub? {
      return Nil;
    }
    if keys == [] {
      return if u.Empty? then Empty else Stub(HashOf(h, u));
    }
    if !u.Inner? {
      return u;
    }
    var matchLeft, matchRight := Partition(keys, d);
    var l := GetUpdates(h, matchLeft, u.left, d + 1);
    var r' := GetUpdates(h, matchRight, u.right, d + 1);
    return Inner(l, r');
  }

  /** A client's proof for its keys, kept current by merging updates. */
  class PartialMPT {
    const h: HashFn
    const keys: seq<Bytes>
    ghost const n: nat
    var root: Trie

    /** The tree is the proof for the keys taken from the trie of `m`. */
    ghost predicate Proves(m: Dict)
      reads this
    {
      && n > 0 && Under(m, [], n) && Sized(keys, n) && keys != []
      && Covers(RootOf(m, n), keys, 0) && root == CopyPaths(h, RootOf(m, n), keys, 0)
    }

    constructor (h: HashFn, keys: seq<Bytes>, ghost n: nat, ghost m: Dict, proof: Trie)
      requires n > 0 && Under(m, [], n) && Sized(keys, n) && keys != []
      requires Covers(RootOf(m, n), keys, 0) && proof == CopyPaths(h, RootOf(m, n), keys, 0)
      ensures Proves(m) && this.h == h && this.keys == keys && this.n == n && root == proof
    {
      this.h, this.keys, this.n, root := h, keys, n, proof;
    }

    /** `Get`: for any key of the right length the map's value or absence, or that a stub hides it. */
    method Get(k: Bytes, ghost m: Dict) returns (a: Answer)
      requires Proves(m) && |k| == n
      ensures k in keys ==> a == if k in m then Present(m[k]) else Absent
      ensures a == Hidden || a == if k in m then Present(m[k]) else Absent
    {
      ProofOfMap(h, m, keys, k, n);
      a := Lookup(root, k, 0);
    }

    /** `ProcessUpdates`: the merged tree proves the new map exactly when no shown empty leaf is new. */
    method ProcessUpdates(u: Trie, ghost delta: Trie, ghost m: Dict, ghost m': Dict)
      requires Proves(m) && Bridges(h, n, m, m', delta) && u == Updates(h, delta, keys, 0)
      modifies this`root
      ensures root == Merge(old(root), u)
      ensures Proves(m') <==> EmptiesOld(RootOf(m, n), RootOf(m', n), keys, 0)
    {
      hide Merge, Updates, CopyPaths, EmptiesOld, RootOf, Covers;
      root := Merge(root, u);
    }
  }
}
