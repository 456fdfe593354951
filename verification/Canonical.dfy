/**
 The reference trie of a map, defined without any operation on tries, and the proof that inserting
 into and deleting from it lands on the reference trie of the updated map.
 */
module Canonical {
  import opened Bits
  import opened Trie
  import opened Tree

  type Dict = map<Bytes, Bytes>
  type Path = seq<bool>

  /** An `n`-byte key whose first bits are the turns `p`. */
  ghost predicate On(k: Bytes, p: Path, n: nat)
  {
    |k| == n && |p| <= 8 * n && forall i :: 0 <= i < |p| ==> Bit(k, i) == p[i]
  }

  /** A map whose keys all lie below the node at path `p`. */
  ghost predicate Under(m: Dict, p: Path, n: nat)
  {
    |p| <= 8 * n && forall k :: k in m ==> On(k, p, n)
  }

  lemma OnAgree(j: Bytes, k: Bytes, p: Path, n: nat)
    requires On(j, p, n) && On(k, p, n)
    ensures Agree(j, k, |p|)
  {
  }

  /** The entries that turn to side `b` at path `p`. */
  ghost function Side(m: Dict, p: Path, b: bool, n: nat): (s: Dict)
    requires Under(m, p, n) && |p| < 8 * n
    ensures Under(s, p + [b], n)
  {
    map k | k in m && Bit(k, |p|) == b :: m[k]
  }

  lemma SideSizes(m: Dict, p: Path, n: nat)
    requires Under(m, p, n) && |p| < 8 * n
    ensures |m| == |Side(m, p, false, n)| + |Side(m, p, true, n)|
  {
    var l, r := Side(m, p, false, n), Side(m, p, true, n);
    assert m.Keys == l.Keys + r.Keys;
    assert l.Keys !! r.Keys;
    assert |l.Keys + r.Keys| == |l.Keys| + |r.Keys|;
  }

  /** Two keys below a node part before their bits run out. */
  lemma TwoKeys(m: Dict, p: Path, n: nat)
    requires Under(m, p, n) && |m| >= 2
    ensures |p| < 8 * n
  {
    var j :| j in m.Keys;
    assert |m.Keys - {j}| >= 1;
    var k :| k in m.Keys - {j};
    if |p| == 8 * n {
      OnAgree(j, k, p, n);
      AgreeOnAll(j, k);
    }
  }

  lemma Single(m: Dict, k: Bytes)
    requires |m| == 1 && k in m
    ensures m == map[k := m[k]]
  {
    assert m.Keys == {k} by {
      assert |m.Keys - {k}| == 0;
    }
  }

  ghost function TheKey(m: Dict): (k: Bytes)
    requires |m| > 0
    ensures k in m
  {
    var k :| k in m.Keys;
    k
  }

  /** The unique trie of a map: nothing, one leaf, or a fork on the next bit. */
  ghost function TrieOf(m: Dict, p: Path, n: nat): (t: Trie)
    requires Under(m, p, n)
    ensures t.Empty? <==> |m| == 0
    ensures t.Leaf? <==> |m| == 1
    ensures t.Inner? <==> |m| >= 2
    decreases 8 * n - |p|
  {
    if |m| == 0 then Empty
    else if |m| == 1 then
      var k := TheKey(m);
      Leaf(k, m[k])
    else
      TwoKeys(m, p, n);
      Inner(TrieOf(Side(m, p, false, n), p + [false], n), TrieOf(Side(m, p, true, n), p + [true], n))
  }

  /** The root is an interior node however few keys there are. */
  ghost function RootOf(m: Dict, n: nat): (t: Trie)
    requires Under(m, [], n) && n > 0
    ensures t.Inner?
  {
    Inner(TrieOf(Side(m, [], false, n), [false], n), TrieOf(Side(m, [], true, n), [true], n))
  }

  /** A key below `p` takes one of the two turns there. */
  lemma OnTurn(k: Bytes, p: Path, n: nat)
    requires On(k, p, n) && |p| < 8 * n
    ensures On(k, p + [Bit(k, |p|)], n)
  {
  }

  /** An added entry lands on its own side only. */
  lemma PutSides(m: Dict, k: Bytes, v: Bytes, p: Path, n: nat)
    requires Under(m, p, n) && On(k, p, n) && |p| < 8 * n
    ensures var b := Bit(k, |p|);
            && Side(m[k := v], p, b, n) == Side(m, p, b, n)[k := v]
            && Side(m[k := v], p, !b, n) == Side(m, p, !b, n)
  {
  }

  /** A removed entry leaves its own side only. */
  lemma DropSides(m: Dict, k: Bytes, p: Path, n: nat)
    requires Under(m, p, n) && On(k, p, n) && |p| < 8 * n
    ensures var b := Bit(k, |p|);
            && Side(m - {k}, p, b, n) == Side(m, p, b, n) - {k}
            && Side(m - {k}, p, !b, n) == Side(m, p, !b, n)
  {
  }

  lemma TrieOfOne(k: Bytes, v: Bytes, p: Path, n: nat)
    requires On(k, p, n)
    ensures TrieOf(map[k := v], p, n) == Leaf(k, v)
  {
    assert |map[k := v]| == 1;
  }

  lemma LookupSmall(m: Dict, k: Bytes, p: Path, n: nat)
    requires Under(m, p, n) && On(k, p, n) && |m| <= 1
    ensures Routes(TrieOf(m, p, n), k, |p|) && Reaches(TrieOf(m, p, n), k, |p|)
    ensures Lookup(TrieOf(m, p, n), k, |p|) == if k in m then Present(m[k]) else Absent
  {
    if |m| == 1 {
      var j := TheKey(m);
      Single(m, j);
      OnAgree(j, k, p, n);
    }
  }

  /** The reference trie answers exactly as the map, and a descent never leaves it. */
  lemma {:induction false} LookupTrieOf(m: Dict, k: Bytes, p: Path, n: nat)
    requires Under(m, p, n) && On(k, p, n)
    ensures Routes(TrieOf(m, p, n), k, |p|) && Reaches(TrieOf(m, p, n), k, |p|)
    ensures Lookup(TrieOf(m, p, n), k, |p|) == if k in m then Present(m[k]) else Absent
    decreases 8 * n - |p|
  {
    if |m| <= 1 {
      LookupSmall(m, k, p, n);
    } else {
      TwoKeys(m, p, n);
      var b := Bit(k, |p|);
      OnTurn(k, p, n);
      assert TrieOf(m, p, n).Child(b) == TrieOf(Side(m, p, b, n), p + [b], n);
      LookupTrieOf(Side(m, p, b, n), k, p + [b], n);
    }
  }

  lemma PairSides(j: Bytes, u: Bytes, k: Bytes, v: Bytes, p: Path, n: nat)
    requires j != k && On(j, p, n) && On(k, p, n)
    ensures |p| < 8 * n && |map[j := u, k := v]| == 2
    ensures var m, b := map[j := u, k := v], Bit(j, |p|);
            if b == Bit(k, |p|) then Side(m, p, b, n) == m && Side(m, p, !b, n) == map[]
            else Side(m, p, b, n) == map[j := u] && Side(m, p, !b, n) == map[k := v]
  {
    var m := map[j := u, k := v];
    assert m.Keys == {j, k};
    TwoKeys(m, p, n);
  }

  lemma {:induction false} SplitTrieOf(a: Tree, b: Tree, p: Path, n: nat)
    requires a.DictLeaf? && b.DictLeaf? && a.key != b.key && On(a.key, p, n) && On(b.key, p, n)
    ensures Agree(a.key, b.key, |p|)
    ensures Split(a, b, |p|).Shape() == TrieOf(map[a.key := a.value, b.key := b.value], p, n)
    decreases 8 * n - |p|
  {
    OnAgree(a.key, b.key, p, n);
    PairSides(a.key, a.value, b.key, b.value, p, n);
    OnTurn(a.key, p, n);
    OnTurn(b.key, p, n);
    var x := Bit(a.key, |p|);
    if x == Bit(b.key, |p|) {
      SplitTrieOf(a, b, p + [x], n);
    } else {
      TrieOfOne(a.key, a.value, p + [x], n);
      TrieOfOne(b.key, b.value, p + [!x], n);
    }
  }

  lemma InsertSmall(t: Tree, m: Dict, k: Bytes, v: Bytes, p: Path, n: nat)
    requires Under(m, p, n) && On(k, p, n) && t.Shape() == TrieOf(m, p, n) && |m| <= 1
    ensures Routes(t.Shape(), k, |p|)
    ensures Insert(t, k, v, |p|).Shape() == TrieOf(m[k := v], p, n)
  {
    TrieOfOne(k, v, p, n);
    if |m| == 0 {
      assert m[k := v] == map[k := v];
    } else {
      var j := TheKey(m);
      Single(m, j);
      OnAgree(j, k, p, n);
      if j == k {
        assert m[k := v] == map[k := v];
      } else {
        SplitTrieOf(MarkChanged(t), NewLeaf(k, v), p, n);
        assert m[k := v] == map[j := m[j], k := v];
      }
    }
  }

  /** Inserting into the trie of a map gives the trie of the map with the entry added. */
  lemma {:induction false} InsertTrieOf(t: Tree, m: Dict, k: Bytes, v: Bytes, p: Path, n: nat)
    requires Under(m, p, n) && On(k, p, n) && t.Shape() == TrieOf(m, p, n)
    ensures Routes(t.Shape(), k, |p|)
    ensures Insert(t, k, v, |p|).Shape() == TrieOf(m[k := v], p, n)
    decreases 8 * n - |p|
  {
    if |m| <= 1 {
      InsertSmall(t, m, k, v, p, n);
    } else {
      TwoKeys(m, p, n);
      var b := Bit(k, |p|);
      OnTurn(k, p, n);
      assert t.Child(b).Shape() == TrieOf(Side(m, p, b, n), p + [b], n);
      InsertTrieOf(t.Child(b), Side(m, p, b, n), k, v, p + [b], n);
      assert Routes(t.Shape().Child(b), k, |p| + 1);
      PutSides(m, k, v, p, n);
      assert |m[k := v]| >= 2 by { assert m[k := v].Keys == m.Keys + {k}; }
    }
  }

  /** One level of `Delete` in terms of shapes. */
  lemma DeleteShape(t: Tree, k: Bytes, d: nat, isRoot: bool)
    requires t.Interior? && Reaches(t.Shape(), k, d)
    ensures var b := Bit(k, d);
            var c, o := Delete(t.Child(b), k, d + 1, false).Shape(), t.Child(!b).Shape();
            Delete(t, k, d, isRoot).Shape() ==
              if o.Empty? && c.IsLeaf() && !isRoot then c
              else if c.Empty? && o.IsLeaf() && !isRoot then o
              else if b then Inner(o, c) else Inner(c, o)
  {
  }

  lemma DeleteSmall(t: Tree, m: Dict, k: Bytes, p: Path, n: nat)
    requires Under(m, p, n) && On(k, p, n) && t.Shape() == TrieOf(m, p, n) && |m| <= 1
    ensures Reaches(t.Shape(), k, |p|)
    ensures Delete(t, k, |p|, false).Shape() == TrieOf(m - {k}, p, n)
  {
    if |m| == 0 {
      assert m - {k} == m;
    } else {
      var j := TheKey(m);
      Single(m, j);
      assert m - {k} == if j == k then map[] else m;
    }
  }

  /** Deleting from the trie of a map gives the trie of the map without the entry. */
  lemma {:induction false} DeleteTrieOf(t: Tree, m: Dict, k: Bytes, p: Path, n: nat)
    requires Under(m, p, n) && On(k, p, n) && t.Shape() == TrieOf(m, p, n)
    ensures Reaches(t.Shape(), k, |p|)
    ensures Delete(t, k, |p|, false).Shape() == TrieOf(m - {k}, p, n)
    decreases 8 * n - |p|
  {
    if |m| <= 1 {
      DeleteSmall(t, m, k, p, n);
    } else {
      TwoKeys(m, p, n);
      var b := Bit(k, |p|);
      OnTurn(k, p, n);
      var c, o := Side(m, p, b, n), Side(m, p, !b, n);
      assert t.Child(b).Shape() == TrieOf(c, p + [b], n);
      assert t.Child(!b).Shape() == TrieOf(o, p + [!b], n);
      DeleteTrieOf(t.Child(b), c, k, p + [b], n);
      assert Reaches(t.Shape().Child(b), k, |p| + 1);
      DeleteShape(t, k, |p|, false);
      DropSides(m, k, p, n);
      ForkOrLess(m - {k}, p, b, n);
    }
  }

  /** The trie of a map in terms of the tries of its sides: a fork exactly when two keys remain. */
  lemma ForkOrLess(m: Dict, p: Path, b: bool, n: nat)
    requires Under(m, p, n) && |p| < 8 * n
    ensures var c, o := TrieOf(Side(m, p, b, n), p + [b], n), TrieOf(Side(m, p, !b, n), p + [!b], n);
            TrieOf(m, p, n) ==
              if o.Empty? && c.IsLeaf() then c
              else if c.Empty? && o.IsLeaf() then o
              else if b then Inner(o, c) else Inner(c, o)
  {
    SideSizes(m, p, n);
    if |m| <= 1 {
      var c, o := Side(m, p, b, n), Side(m, p, !b, n);
      if |o| == 0 {
        assert m == c by { assert o.Keys == {}; assert forall j :: j in m ==> j in c || j in o; }
      } else {
        assert m == o by { assert c.Keys == {}; assert forall j :: j in m ==> j in c || j in o; }
      }
    }
  }

  // ----- the root -----

  lemma LookupRootOf(m: Dict, k: Bytes, n: nat)
    requires Under(m, [], n) && n > 0 && |k| == n
    ensures Routes(RootOf(m, n), k, 0) && Reaches(RootOf(m, n), k, 0)
    ensures Lookup(RootOf(m, n), k, 0) == if k in m then Present(m[k]) else Absent
  {
    var b := Bit(k, 0);
    OnTurn(k, [], n);
    LookupTrieOf(Side(m, [], b, n), k, [b], n);
    assert RootOf(m, n).Child(b) == TrieOf(Side(m, [], b, n), [b], n);
  }

  lemma InsertRootOf(t: Tree, m: Dict, k: Bytes, v: Bytes, n: nat)
    requires Under(m, [], n) && n > 0 && |k| == n && t.Shape() == RootOf(m, n)
    ensures Routes(t.Shape(), k, 0) && Under(m[k := v], [], n)
    ensures Insert(t, k, v, 0).Shape() == RootOf(m[k := v], n)
  {
    var b := Bit(k, 0);
    OnTurn(k, [], n);
    assert t.Child(b).Shape() == TrieOf(Side(m, [], b, n), [b], n);
    InsertTrieOf(t.Child(b), Side(m, [], b, n), k, v, [b], n);
    PutSides(m, k, v, [], n);
    LookupRootOf(m, k, n);
  }

  lemma DeleteRootOf(t: Tree, m: Dict, k: Bytes, n: nat)
    requires Under(m, [], n) && n > 0 && |k| == n && t.Shape() == RootOf(m, n)
    ensures Reaches(t.Shape(), k, 0) && Under(m - {k}, [], n)
    ensures Delete(t, k, 0, true).Shape() == RootOf(m - {k}, n)
  {
    var b := Bit(k, 0);
    OnTurn(k, [], n);
    assert [] + [b] == [b] && [] + [!b] == [!b];
    var c, o := Side(m, [], b, n), Side(m, [], !b, n);
    assert t.Child(b).Shape() == TrieOf(c, [b], n) && t.Child(!b).Shape() == TrieOf(o, [!b], n);
    LookupRootOf(m, k, n);
    DeleteShape(t, k, 0, true);
    DeleteTrieOf(t.Child(b), c, k, [b], n);
    DropSides(m, k, [], n);
    assert RootOf(m - {k}, n).Child(b) == TrieOf(c - {k}, [b], n);
    assert RootOf(m - {k}, n).Child(!b) == TrieOf(o, [!b], n);
  }

  // ----- the shape of the reference trie -----

  /** No interior node holds fewer than two keys: such a node would have been collapsed. */
  predicate Bushy(t: Trie)
  {
    t.Inner? ==>
      && !(t.left.Empty? && t.right.IsLeaf())
      && !(t.right.Empty? && t.left.IsLeaf())
      && Bushy(t.left) && Bushy(t.right)
  }

  lemma {:induction false} TrieOfBushy(m: Dict, p: Path, n: nat)
    requires Under(m, p, n)
    ensures Bushy(TrieOf(m, p, n))
    ensures TrieOf(m, p, n).Height() <= 8 * n - |p|
    decreases 8 * n - |p|
  {
    if |m| >= 2 {
      TwoKeys(m, p, n);
      SideSizes(m, p, n);
      TrieOfBushy(Side(m, p, false, n), p + [false], n);
      TrieOfBushy(Side(m, p, true, n), p + [true], n);
    }
  }

  /** The trie is never higher than a key has bits. */
  lemma RootOfHeight(m: Dict, n: nat)
    requires Under(m, [], n) && n > 0
    ensures 1 <= RootOf(m, n).Height() <= 8 * n
    ensures Bushy(RootOf(m, n).left) && Bushy(RootOf(m, n).right)
  {
    TrieOfBushy(Side(m, [], false, n), [false], n);
    TrieOfBushy(Side(m, [], true, n), [true], n);
  }

  // ----- the commitment of a map, without a trie -----

  /** The digest of the entries below `p`: zeros, the hash of the one entry, or the hash of both sides, 0 before 1. */
  ghost function MapDigest(h: HashFn, m: Dict, p: Path, n: nat): Digest
    requires Under(m, p, n)
    decreases 8 * n - |p|
  {
    if |m| == 0 then ZERO
    else if |m| == 1 then
      var k := TheKey(m);
      h(k + m[k])
    else
      TwoKeys(m, p, n);
      var l: Bytes, r: Bytes :=
        MapDigest(h, Side(m, p, false, n), p + [false], n), MapDigest(h, Side(m, p, true, n), p + [true], n);
      h(l + r)
  }

  /** At the root both sides are hashed however few entries there are. */
  ghost function RootDigest(h: HashFn, m: Dict, n: nat): Digest
    requires Under(m, [], n) && n > 0
  {
    var l: Bytes, r: Bytes :=
      MapDigest(h, Side(m, [], false, n), [false], n), MapDigest(h, Side(m, [], true, n), [true], n);
    h(l + r)
  }

  lemma {:induction false} TrieDigest(h: HashFn, m: Dict, p: Path, n: nat)
    requires Under(m, p, n)
    ensures HashOf(h, TrieOf(m, p, n)) == MapDigest(h, m, p, n)
    decreases 8 * n - |p|
  {
    hide Side;
    if |m| >= 2 {
      TwoKeys(m, p, n);
      TrieDigest(h, Side(m, p, false, n), p + [false], n);
      TrieDigest(h, Side(m, p, true, n), p + [true], n);
    }
  }

  /** The commitment of a dictionary is the digest of its map. */
  lemma CommitmentDigest(h: HashFn, m: Dict, n: nat)
    requires Under(m, [], n) && n > 0
    ensures HashOf(h, RootOf(m, n)) == RootDigest(h, m, n)
  {
    hide TrieOf, MapDigest;
    TrieDigest(h, Side(m, [], false, n), [false], n);
    TrieDigest(h, Side(m, [], true, n), [true], n);
  }

  lemma DigestOfOne(h: HashFn, k: Bytes, v: Bytes, p: Path, n: nat)
    requires On(k, p, n)
    ensures MapDigest(h, map[k := v], p, n) == h(k + v) && MapDigest(h, map[], p, n) == ZERO
  {
    var m := map[k := v];
    assert |m| == 1 && TheKey(m) == k;
  }

  /** Small dictionaries written out: a key with first bit 0 hashes on the left, one with first bit 1 on the right. */
  lemma SmallCommitments(h: HashFn, n: nat, j: Bytes, u: Bytes, k: Bytes, v: Bytes)
    requires n > 0 && |j| == |k| == n && !Bit(j, 0) && Bit(k, 0)
    ensures Under(map[j := u, k := v], [], n) && Under(map[j := u], [], n) && Under(map[k := v], [], n)
    ensures Under(map[], [], n)
    ensures var x: Bytes, y: Bytes, zero: Bytes := h(j + u), h(k + v), ZERO;
            && HashOf(h, RootOf(map[j := u, k := v], n)) == h(x + y)
            && HashOf(h, RootOf(map[j := u], n)) == h(x + zero)
            && HashOf(h, RootOf(map[k := v], n)) == h(zero + y)
            && HashOf(h, RootOf(map[], n)) == h(zero + zero)
  {
    hide Bit, HashOf, RootOf, MapDigest;
    var both, left, right, none: Dict := map[j := u, k := v], map[j := u], map[k := v], map[];
    CommitmentDigest(h, both, n);
    CommitmentDigest(h, left, n);
    CommitmentDigest(h, right, n);
    CommitmentDigest(h, none, n);
    DigestOfOne(h, j, u, [false], n);
    DigestOfOne(h, k, v, [true], n);
    assert [] + [false] == [false] && [] + [true] == [true];
    SplitSides(n, j, u, k, v);
  }

  lemma SplitSides(n: nat, j: Bytes, u: Bytes, k: Bytes, v: Bytes)
    requires n > 0 && |j| == |k| == n && !Bit(j, 0) && Bit(k, 0)
    ensures Side(map[j := u, k := v], [], false, n) == map[j := u]
    ensures Side(map[j := u, k := v], [], true, n) == map[k := v]
    ensures Side(map[j := u], [], false, n) == map[j := u] && Side(map[j := u], [], true, n) == map[]
    ensures Side(map[k := v], [], false, n) == map[] && Side(map[k := v], [], true, n) == map[k := v]
    ensures Side(map[], [], false, n) == map[] && Side(map[], [], true, n) == map[]
  {
    hide Bit;
  }
}
