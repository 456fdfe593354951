/** Partial tries: the part of a trie on the paths of some keys, the rest cut off to hashes. */
module Partial {
  import opened Bits
  import opened Trie
  import opened Canonical

  /** The keys whose bit `d` is `b`, in order: `matchRight` or `matchLeft`. */
  function Turn(keys: seq<Bytes>, d: nat, b: bool): (r: seq<Bytes>)
    ensures forall k :: k in r <==> k in keys && d < 8 * |k| && Bit(k, d) == b
  {
    if keys == [] then []
    else
      var rest := Turn(keys[1..], d, b);
      if d < 8 * |keys[0]| && Bit(keys[0], d) == b then [keys[0]] + rest else rest
  }

  predicate Long(keys: seq<Bytes>, d: nat)
  {
    forall k :: k in keys ==> d < 8 * |k|
  }

  lemma {:induction false} TurnAppend(keys: seq<Bytes>, k: Bytes, d: nat, b: bool)
    requires d < 8 * |k|
    ensures Turn(keys + [k], d, b) == if Bit(k, d) == b then Turn(keys, d, b) + [k] else Turn(keys, d, b)
  {
    if keys == [] {
      assert [] + [k] == [k];
    } else {
      assert (keys + [k])[1..] == keys[1..] + [k];
      TurnAppend(keys[1..], k, d, b);
    }
  }

  lemma TurnNone(d: nat)
    ensures Turn([], d, false) == [] && Turn([], d, true) == []
  {
  }

  /** The loop that divides the keys between the two children. */
  method Partition(keys: seq<Bytes>, d: nat) returns (matchLeft: seq<Bytes>, matchRight: seq<Bytes>)
    requires Long(keys, d)
    ensures matchLeft == Turn(keys, d, false) && matchRight == Turn(keys, d, true)
  {
    hide Turn, Bit;
    TurnNone(d);
    matchLeft, matchRight := [], [];
    for i := 0 to |keys|
      invariant matchLeft == Turn(keys[..i], d, false) && matchRight == Turn(keys[..i], d, true)
    {
      var key := keys[i];
      assert keys[..i + 1] == keys[..i] + [key];
      TurnAppend(keys[..i], key, d, false);
      TurnAppend(keys[..i], key, d, true);
      if Bit(key, d) {
        matchRight := matchRight + [key];
      } else {
        matchLeft := matchLeft + [key];
      }
    }
    assert keys[..|keys|] == keys;
  }

  /** Every key can be followed to a leaf: no stub, no nil child, no bit past the end of a key. */
  predicate Covers(t: Trie, keys: seq<Bytes>, d: nat)
  {
    match t
    case Nil => false
    case Stub(_) => keys == []
    case Inner(l, r) =>
      keys == [] ||
      (Long(keys, d) && Covers(l, Turn(keys, d, false), d + 1) && Covers(r, Turn(keys, d, true), d + 1))
    case _ => true
  }

  /** `copyMultiplePaths`. */
  function CopyPaths(h: HashFn, t: Trie, keys: seq<Bytes>, d: nat): (p: Trie)
    requires Covers(t, keys, d)
    ensures !p.Nil? && (p.Empty? <==> t.Empty?) && (p.Inner? <==> t.Inner? && keys != [])
    decreases t
  {
    if keys == [] then (if t.Empty? then Empty else Stub(HashOf(h, t)))
    else
      match t
      case Inner(l, r) =>
        Inner(CopyPaths(h, l, Turn(keys, d, false), d + 1), CopyPaths(h, r, Turn(keys, d, true), d + 1))
      case _ => t
  }

  /** Cutting subtrees off does not change the hash, so caching the original's hash in the copy is right. */
  lemma {:induction false} CopyHash(h: HashFn, t: Trie, keys: seq<Bytes>, d: nat)
    requires Covers(t, keys, d)
    ensures HashOf(h, CopyPaths(h, t, keys, d)) == HashOf(h, t)
    decreases t
  {
    if keys != [] && t.Inner? {
      CopyHash(h, t.left, Turn(keys, d, false), d + 1);
      CopyHash(h, t.right, Turn(keys, d, true), d + 1);
    }
  }

  /**
   A key the proof is for gets the full trie's answer, present or absent, and never a stub. Any
   other key gets the full trie's answer or a stub, never a different answer.
   */
  lemma {:induction false} CopyAnswers(h: HashFn, t: Trie, keys: seq<Bytes>, k: Bytes, d: nat)
    requires Covers(t, keys, d) && Reaches(t, k, d)
    ensures var p := CopyPaths(h, t, keys, d);
            && Reaches(p, k, d)
            && (Lookup(p, k, d) == Hidden || Lookup(p, k, d) == Lookup(t, k, d))
            && (k in keys ==> Lookup(p, k, d) != Hidden)
    decreases t
  {
    if keys != [] && t.Inner? {
      var b := Bit(k, d);
      CopyAnswers(h, t.Child(b), Turn(keys, d, b), k, d + 1);
      var p := CopyPaths(h, t, keys, d);
      assert p.Child(b) == CopyPaths(h, t.Child(b), Turn(keys, d, b), d + 1);
    }
  }

  lemma {:induction false} CoversFewer(t: Trie, few: seq<Bytes>, keys: seq<Bytes>, d: nat)
    requires Covers(t, keys, d) && forall k :: k in few ==> k in keys
    ensures Covers(t, few, d)
    decreases t
  {
    if few != [] {
      assert few[0] in keys;
      if t.Inner? {
        CoversFewer(t.left, Turn(few, d, false), Turn(keys, d, false), d + 1);
        CoversFewer(t.right, Turn(few, d, true), Turn(keys, d, true), d + 1);
      }
    }
  }

  /** Slimming a proof to some of its keys gives the proof for those keys taken from the full trie. */
  lemma {:induction false} CopyCompose(h: HashFn, t: Trie, few: seq<Bytes>, keys: seq<Bytes>, d: nat)
    requires Covers(t, keys, d) && forall k :: k in few ==> k in keys
    ensures Covers(t, few, d) && Covers(CopyPaths(h, t, keys, d), few, d)
    ensures CopyPaths(h, CopyPaths(h, t, keys, d), few, d) == CopyPaths(h, t, few, d)
    decreases t
  {
    CoversFewer(t, few, keys, d);
    if few == [] {
      CopyHash(h, t, keys, d);
    } else {
      assert few[0] in keys;
      if t.Inner? {
        CopyCompose(h, t.left, Turn(few, d, false), Turn(keys, d, false), d + 1);
        CopyCompose(h, t.right, Turn(few, d, true), Turn(keys, d, true), d + 1);
      }
    }
  }

  // ----- full tries -----

  /** No stub, no nil child, and no interior node deeper than an `n`-byte key has bits. */
  predicate Solid(t: Trie, d: nat, n: nat)
  {
    match t
    case Nil => false
    case Stub(_) => false
    case Inner(l, r) => d < 8 * n && Solid(l, d + 1, n) && Solid(r, d + 1, n)
    case _ => true
  }

  lemma {:induction false} TrieOfSolid(m: Dict, p: Path, n: nat)
    requires Under(m, p, n)
    ensures Solid(TrieOf(m, p, n), |p|, n)
    decreases 8 * n - |p|
  {
    if |m| >= 2 {
      TwoKeys(m, p, n);
      TrieOfSolid(Side(m, p, false, n), p + [false], n);
      TrieOfSolid(Side(m, p, true, n), p + [true], n);
    }
  }

  ghost predicate Sized(keys: seq<Bytes>, n: nat)
  {
    forall k :: k in keys ==> |k| == n
  }

  lemma {:induction false} SolidCovers(t: Trie, keys: seq<Bytes>, d: nat, n: nat)
    requires Solid(t, d, n) && Sized(keys, n)
    ensures Covers(t, keys, d)
    decreases t
  {
    if t.Inner? {
      SolidCovers(t.left, Turn(keys, d, false), d + 1, n);
      SolidCovers(t.right, Turn(keys, d, true), d + 1, n);
    }
  }

  lemma RootOfCovers(m: Dict, keys: seq<Bytes>, n: nat)
    requires Under(m, [], n) && n > 0 && Sized(keys, n)
    ensures Solid(RootOf(m, n), 0, n) && Covers(RootOf(m, n), keys, 0)
  {
    TrieOfSolid(Side(m, [], false, n), [false], n);
    TrieOfSolid(Side(m, [], true, n), [true], n);
    SolidCovers(RootOf(m, n), keys, 0, n);
  }

  /** A proof taken from the trie of a map commits to the map's root and answers as the map does. */
  lemma ProofOfMap(h: HashFn, m: Dict, keys: seq<Bytes>, k: Bytes, n: nat)
    requires Under(m, [], n) && n > 0 && Sized(keys, n) && |k| == n
    ensures Covers(RootOf(m, n), keys, 0)
    ensures var p := CopyPaths(h, RootOf(m, n), keys, 0);
            && HashOf(h, p) == HashOf(h, RootOf(m, n))
            && Reaches(p, k, 0)
            && (k in keys ==> Lookup(p, k, 0) != Hidden)
            && (Lookup(p, k, 0) == Hidden || Lookup(p, k, 0) == if k in m then Present(m[k]) else Absent)
  {
    RootOfCovers(m, keys, n);
    CopyHash(h, RootOf(m, n), keys, 0);
    LookupRootOf(m, k, n);
    CopyAnswers(h, RootOf(m, n), keys, k, 0);
  }
}
