/**
 The full trie with the bookkeeping its nodes carry: the change flag, the stale flag and the
 cached hash bytes. The operations here are what the in-place code in FullMpt computes.
 */
module Tree {
  import opened Bits
  import opened Trie

  /** `changed`, `recalculateHash` and the hash buffer of a node. */
  datatype Mark = Mark(changed: bool, stale: bool, cache: Digest)

  datatype Tree =
    | EmptyLeaf
    | DictLeaf(key: Bytes, value: Bytes, mark: Mark)
    | Interior(left: Tree, right: Tree, mark: Mark)
  {
    predicate IsLeaf() { !Interior? }

    /** An empty leaf is one shared object without state: it never counts as changed. */
    predicate Changed() { !EmptyLeaf? && mark.changed }

    predicate Stale() { !EmptyLeaf? && mark.stale }

    function Child(b: bool): Tree
      requires Interior?
    {
      if b then right else left
    }

    /** The node without its bookkeeping. */
    function Shape(): (s: Trie)
      ensures s.Empty? <==> EmptyLeaf?
      ensures s.Inner? <==> Interior?
      ensures s.Leaf? <==> DictLeaf?
    {
      match this
      case EmptyLeaf => Empty
      case DictLeaf(k, v, _) => Leaf(k, v)
      case Interior(l, r, _) => Inner(l.Shape(), r.Shape())
    }
  }

  const FRESH := Mark(true, true, ZERO)

  function NewLeaf(k: Bytes, v: Bytes): Tree { DictLeaf(k, v, FRESH) }
  function NewInterior(l: Tree, r: Tree): Tree { Interior(l, r, FRESH) }

  /** The trie of a new dictionary: an interior root over two empty leaves. */
  const NEW := NewInterior(EmptyLeaf, EmptyLeaf)

  /** Replacing a child marks the node changed and stale; the old hash bytes stay in the buffer. */
  function SetChild(t: Tree, b: bool, c: Tree): Tree
    requires t.Interior?
  {
    var m := Mark(true, true, t.mark.cache);
    if b then Interior(t.left, c, m) else Interior(c, t.right, m)
  }

  /** Writing the value that is already there changes nothing. */
  function SetValue(t: Tree, v: Bytes): Tree
    requires t.DictLeaf?
  {
    if t.value == v then t else DictLeaf(t.key, v, Mark(true, true, t.mark.cache))
  }

  function MarkChanged(t: Tree): Tree
    requires t.DictLeaf?
  {
    DictLeaf(t.key, t.value, t.mark.(changed := true))
  }

  /** Two leaves whose keys agree on `d` bits, pushed down until their keys part. */
  function Split(a: Tree, b: Tree, d: nat): (t: Tree)
    requires a.DictLeaf? && b.DictLeaf? && a.key != b.key && Agree(a.key, b.key, d)
    ensures t.Interior? && t.mark == FRESH
    decreases 8 * |a.key| - d
  {
    if d == 8 * |a.key| then
      AgreeOnAll(a.key, b.key);
      assert false; NEW
    else if Bit(a.key, d) == Bit(b.key, d) then
      var rest := Split(a, b, d + 1);
      if Bit(a.key, d) then NewInterior(EmptyLeaf, rest) else NewInterior(rest, EmptyLeaf)
    else if Bit(a.key, d) then NewInterior(b, a)
    else NewInterior(a, b)
  }

  function Insert(t: Tree, k: Bytes, v: Bytes, d: nat): (r: Tree)
    requires Routes(t.Shape(), k, d)
    ensures t.Interior? ==> r.Interior?
    decreases t
  {
    match t
    case EmptyLeaf => NewLeaf(k, v)
    case DictLeaf(key, _, _) =>
      if key == k then SetValue(t, v) else Split(MarkChanged(t), NewLeaf(k, v), d)
    case Interior(_, _, _) =>
      var b := Bit(k, d);
      SetChild(t, b, Insert(t.Child(b), k, v, d + 1))
  }

  /**
   `c` takes the place of the child on side `b`. Below the root, an interior node left with a
   single leaf is replaced by that leaf; an other child that moves up is marked changed.
   */
  function Collapse(t: Tree, b: bool, c: Tree, isRoot: bool): Tree
    requires t.Interior?
  {
    var o := t.Child(!b);
    if o.EmptyLeaf? && c.IsLeaf() && !isRoot then c
    else if c.EmptyLeaf? && o.IsLeaf() && !isRoot then (if o.DictLeaf? then MarkChanged(o) else o)
    else SetChild(t, b, c)
  }

  function Delete(t: Tree, k: Bytes, d: nat, isRoot: bool): (r: Tree)
    requires Reaches(t.Shape(), k, d)
    ensures isRoot && t.Interior? ==> r.Interior?
    decreases t
  {
    match t
    case EmptyLeaf => t
    case DictLeaf(key, _, _) => if key == k then EmptyLeaf else t
    case Interior(_, _, _) =>
      var b := Bit(k, d);
      Collapse(t, b, Delete(t.Child(b), k, d + 1, false), isRoot)
  }

  /** The tree after `GetHash`: stale nodes reached through stale nodes are rehashed bottom up. */
  function Rehash(h: HashFn, t: Tree): Tree
  {
    if !t.Stale() then t else
    match t
    case DictLeaf(k, v, m) => DictLeaf(k, v, Mark(m.changed, false, h(k + v)))
    case Interior(l, r, m) =>
      var l' := Rehash(h, l);
      var r' := Rehash(h, r);
      Interior(l', r', Mark(m.changed, false, h(Cached(l') + Cached(r'))))
  }

  /** The hash bytes a node answers with once it is not stale. */
  function Cached(t: Tree): Digest {
    if t.EmptyLeaf? then ZERO else t.mark.cache
  }

  /** `CountHashesRequiredForGetHash`: stops at the first node that is not stale. */
  function Recalculations(t: Tree): nat
  {
    if !t.Stale() then 0
    else if t.DictLeaf? then 1
    else 1 + Recalculations(t.left) + Recalculations(t.right)
  }

  /** `MarkUnchangedAll`: descends only into changed children. */
  function Unchange(t: Tree): Tree
  {
    match t
    case EmptyLeaf => t
    case DictLeaf(k, v, m) => DictLeaf(k, v, m.(changed := false))
    case Interior(l, r, m) =>
      Interior(if l.Changed() then Unchange(l) else l,
               if r.Changed() then Unchange(r) else r,
               m.(changed := false))
  }

  /** `DeepCopy`: every copied node is marked changed and not stale, whatever the original's flags. */
  function Copy(t: Tree): Tree
  {
    match t
    case EmptyLeaf => t
    case DictLeaf(k, v, m) => DictLeaf(k, v, Mark(true, false, m.cache))
    case Interior(l, r, m) => Interior(Copy(l), Copy(r), Mark(true, false, m.cache))
  }
}
