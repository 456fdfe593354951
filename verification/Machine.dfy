/**
 Every run of a full trie from `NewFullMPT`: inserts, deletes, resets and commitments in any order,
 next to the plain map updated by the same operations and the shape at the last reset.
 */
module Machine {
  import opened Bits
  import opened Trie
  import opened Tree
  import opened Canonical
  import opened Invariants
  import opened Partial

  datatype Op = Put(key: Bytes, value: Bytes) | Drop(key: Bytes) | Reset | Commit

  /** `base` is the shape at the last reset, Nil before the first. */
  datatype State = State(tree: Tree, dict: Dict, base: Trie)

  ghost predicate Inv(h: HashFn, n: nat, s: State)
  {
    && n > 0 && Under(s.dict, [], n)
    && s.tree.Shape() == RootOf(s.dict, n)
    && CacheOk(h, s.tree)
    && FlagsOk(s.tree, s.base)
  }

  /** The keys of a dictionary have one fixed length. */
  predicate Fits(op: Op, n: nat)
  {
    match op
    case Put(k, _) => |k| == n
    case Drop(k) => |k| == n
    case _ => true
  }

  const INIT := State(NEW, map[], Nil)

  ghost function Step(h: HashFn, n: nat, s: State, op: Op): (s': State)
    requires Inv(h, n, s) && Fits(op, n)
    ensures s'.tree.Interior?
  {
    match op
    case Put(k, v) =>
      LookupRootOf(s.dict, k, n);
      State(Insert(s.tree, k, v, 0), s.dict[k := v], s.base)
    case Drop(k) =>
      LookupRootOf(s.dict, k, n);
      State(Delete(s.tree, k, 0, true), s.dict - {k}, s.base)
    case Reset => State(Unchange(s.tree), s.dict, s.tree.Shape())
    case Commit => RehashOk(h, s.tree); State(Rehash(h, s.tree), s.dict, s.base)
  }

  lemma InitInv(h: HashFn, n: nat)
    requires n > 0
    ensures Inv(h, n, INIT)
  {
    assert Side(map[], [], false, n) == map[];
    assert Side(map[], [], true, n) == map[];
  }

  /** Every operation keeps the invariant. */
  lemma StepInv(h: HashFn, n: nat, s: State, op: Op)
    requires Inv(h, n, s) && Fits(op, n)
    ensures Inv(h, n, Step(h, n, s, op))
  {
    match op
    case Put(k, v) =>
      InsertRootOf(s.tree, s.dict, k, v, n);
      InsertCache(h, s.tree, k, v, 0);
      InsertFlags(s.tree, k, v, 0, s.base);
    case Drop(k) =>
      DeleteRootOf(s.tree, s.dict, k, n);
      DeleteCache(h, s.tree, k, 0, true);
      RootOfHeight(s.dict, n);
      DeleteFlags(s.tree, k, 0, true, s.base);
    case Reset =>
      UnchangeCache(h, s.tree);
      UnchangeAll(s.tree, s.base);
      UnchangedIsBase(Unchange(s.tree));
    case Commit =>
      RehashOk(h, s.tree);
      RehashFlags(h, s.tree, s.base);
  }

  /** What an insertion into a reachable trie may rely on, and the state it leaves. */
  lemma PutStep(h: HashFn, n: nat, s: State, k: Bytes, v: Bytes)
    requires Inv(h, n, s) && |k| == n
    ensures s.tree.Interior? && Routes(s.tree.Shape(), k, 0)
    ensures Step(h, n, s, Put(k, v)) == State(Insert(s.tree, k, v, 0), s.dict[k := v], s.base)
    ensures Inv(h, n, Step(h, n, s, Put(k, v)))
  {
    LookupRootOf(s.dict, k, n);
    StepInv(h, n, s, Put(k, v));
  }

  lemma DropStep(h: HashFn, n: nat, s: State, k: Bytes)
    requires Inv(h, n, s) && |k| == n
    ensures s.tree.Interior? && Reaches(s.tree.Shape(), k, 0)
    ensures Step(h, n, s, Drop(k)) == State(Delete(s.tree, k, 0, true), s.dict - {k}, s.base)
    ensures Inv(h, n, Step(h, n, s, Drop(k)))
  {
    LookupRootOf(s.dict, k, n);
    StepInv(h, n, s, Drop(k));
  }

  lemma CommitStep(h: HashFn, n: nat, s: State)
    requires Inv(h, n, s)
    ensures Step(h, n, s, Commit) == State(Rehash(h, s.tree), s.dict, s.base)
    ensures Inv(h, n, Step(h, n, s, Commit)) && s.tree.Interior?
    ensures Cached(Rehash(h, s.tree)) == HashOf(h, RootOf(s.dict, n))
    ensures Recalculations(s.tree) == StaleNodes(s.tree) && StaleNodes(Rehash(h, s.tree)) == 0
  {
    StepInv(h, n, s, Commit);
    RehashOk(h, s.tree);
    RecalculationsOk(h, s.tree);
  }

  lemma ResetStep(h: HashFn, n: nat, s: State)
    requires Inv(h, n, s)
    ensures n > 0 && Under(s.dict, [], n)
    ensures Step(h, n, s, Reset) == State(Unchange(s.tree), s.dict, RootOf(s.dict, n))
    ensures Inv(h, n, Step(h, n, s, Reset)) && s.tree.Interior?
  {
    StepInv(h, n, s, Reset);
  }

  lemma InvParts(h: HashFn, n: nat, s: State)
    requires Inv(h, n, s)
    ensures n > 0 && Under(s.dict, [], n) && s.tree.Interior? && CacheOk(h, s.tree)
    ensures s.tree.Shape() == RootOf(s.dict, n)
  {
  }

  /** A proof for keys of the right length can be taken from a reachable trie. */
  lemma ProofReady(h: HashFn, n: nat, s: State, keys: seq<Bytes>)
    requires Inv(h, n, s) && Sized(keys, n)
    ensures n > 0 && Under(s.dict, [], n) && s.tree.Interior? && CacheOk(h, s.tree)
    ensures s.tree.Shape() == RootOf(s.dict, n) && Covers(RootOf(s.dict, n), keys, 0)
  {
    RootOfCovers(s.dict, keys, n);
  }

  /** Hashing some nodes in passing keeps the invariant. */
  lemma HashedInv(h: HashFn, n: nat, s: State, t: Tree)
    requires Inv(h, n, s) && Hashed(h, s.tree, t)
    ensures Inv(h, n, State(t, s.dict, s.base)) && s.tree.Interior?
    ensures StaleNodes(s.tree) == 0 ==> StaleNodes(t) == 0
  {
    LastingSame(s.tree, t, s.base);
    if !t.Stale() {
      FreshBelow(h, t);
    }
  }

  ghost predicate AllFit(ops: seq<Op>, n: nat)
  {
    forall i :: 0 <= i < |ops| ==> Fits(ops[i], n)
  }

  /** The state after a run. */
  ghost function Run(h: HashFn, n: nat, s: State, ops: seq<Op>): (s': State)
    requires Inv(h, n, s) && AllFit(ops, n)
    ensures Inv(h, n, s')
    decreases ops
  {
    if ops == [] then s
    else
      StepInv(h, n, s, ops[0]);
      Run(h, n, Step(h, n, s, ops[0]), ops[1..])
  }

  /** The map the same operations leave, computed without any trie. */
  ghost function Effect(m: Dict, ops: seq<Op>): Dict
    decreases ops
  {
    if ops == [] then m
    else
      match ops[0]
      case Put(k, v) => Effect(m[k := v], ops[1..])
      case Drop(k) => Effect(m - {k}, ops[1..])
      case _ => Effect(m, ops[1..])
  }

  lemma {:induction false} RunEffect(h: HashFn, n: nat, s: State, ops: seq<Op>)
    requires Inv(h, n, s) && AllFit(ops, n)
    ensures Run(h, n, s, ops).dict == Effect(s.dict, ops)
    decreases ops
  {
    if ops != [] {
      StepInv(h, n, s, ops[0]);
      RunEffect(h, n, Step(h, n, s, ops[0]), ops[1..]);
    }
  }

  /** The trie refines a map over every run, and no descent needs more bits than a key has. */
  lemma RunRefinesMap(h: HashFn, n: nat, ops: seq<Op>, k: Bytes)
    requires n > 0 && AllFit(ops, n) && |k| == n
    ensures Inv(h, n, INIT)
    ensures var t, m := Run(h, n, INIT, ops).tree.Shape(), Effect(map[], ops);
            && Reaches(t, k, 0)
            && Lookup(t, k, 0) == (if k in m then Present(m[k]) else Absent)
            && t.Height() <= 8 * n
  {
    InitInv(h, n);
    RunEffect(h, n, INIT, ops);
    var s := Run(h, n, INIT, ops);
    LookupRootOf(s.dict, k, n);
    RootOfHeight(s.dict, n);
  }

  /** Two histories with the same effect leave the same trie and the same commitment. */
  lemma HistoryIndependence(h: HashFn, n: nat, xs: seq<Op>, ys: seq<Op>)
    requires n > 0 && AllFit(xs, n) && AllFit(ys, n) && Effect(map[], xs) == Effect(map[], ys)
    ensures Inv(h, n, INIT)
    ensures Run(h, n, INIT, xs).tree.Shape() == Run(h, n, INIT, ys).tree.Shape()
    ensures Cached(Rehash(h, Run(h, n, INIT, xs).tree)) == Cached(Rehash(h, Run(h, n, INIT, ys).tree))
  {
    InitInv(h, n);
    RunEffect(h, n, INIT, xs);
    RunEffect(h, n, INIT, ys);
    RehashOk(h, Run(h, n, INIT, xs).tree);
    RehashOk(h, Run(h, n, INIT, ys).tree);
  }

  /** Lazy hashing cannot be observed: dropping every commitment from a run changes no answer and no commitment. */
  lemma LazinessInvisible(h: HashFn, n: nat, ops: seq<Op>)
    requires n > 0 && AllFit(ops, n)
    ensures Inv(h, n, INIT) && AllFit(Quiet(ops), n)
    ensures var s, q := Run(h, n, INIT, ops), Run(h, n, INIT, Quiet(ops));
            && s.tree.Shape() == q.tree.Shape()
            && Cached(Rehash(h, s.tree)) == Cached(Rehash(h, q.tree)) == HashOf(h, RootOf(s.dict, n))
            && Recalculations(s.tree) == StaleNodes(s.tree)
            && Recalculations(Rehash(h, s.tree)) == 0
  {
    QuietOk(ops, map[], n);
    HistoryIndependence(h, n, ops, Quiet(ops));
    var s := Run(h, n, INIT, ops);
    RehashOk(h, s.tree);
    RecalculationsOk(h, s.tree);
  }

  /** A run without its commitments. */
  ghost function Quiet(ops: seq<Op>): seq<Op>
  {
    if ops == [] then []
    else if ops[0].Commit? then Quiet(ops[1..])
    else [ops[0]] + Quiet(ops[1..])
  }

  lemma {:induction false} QuietOk(ops: seq<Op>, m: Dict, n: nat)
    requires AllFit(ops, n)
    ensures AllFit(Quiet(ops), n) && Effect(m, Quiet(ops)) == Effect(m, ops)
    decreases ops
  {
    if ops != [] {
      var m' := match ops[0] case Put(k, v) => m[k := v] case Drop(k) => m - {k} case _ => m;
      QuietOk(ops[1..], m', n);
      if !ops[0].Commit? {
        assert Quiet(ops)[1..] == Quiet(ops[1..]);
      }
    }
  }
}
