/** The byte encoding of trie nodes and its reader. */
module Codec {
  import opened Bits
  import opened Trie

  const INT32_MAX := 0x7fff_ffff

  /** A big-endian int32. Sizes of 2^31 and more wrap to what the source's cast to int32 writes. */
  function Int32(x: nat): (b: Bytes)
    ensures |b| == 4
  {
    [x / 0x100_0000 % 0x100, x / 0x1_0000 % 0x100, x / 0x100 % 0x100, x % 0x100]
  }

  /** The int32 in the first four bytes. */
  function Value32(b: Bytes): int
    requires |b| >= 4
  {
    var u := b[0] as int * 0x100_0000 + b[1] as int * 0x1_0000 + b[2] as int * 0x100 + b[3] as int;
    if u > INT32_MAX then u - 0x1_0000_0000 else u
  }

  function ByteSize(t: Trie): nat
  {
    match t
    case Nil => 0
    case Stub(d) => 5 + |d|
    case Empty => 1
    case Leaf(k, v) => 9 + |k| + |v|
    case Inner(l, r) => 9 + ByteSize(l) + ByteSize(r)
  }

  /** `Serialize`; a nil child is a zero length and nothing else. */
  function Serialize(t: Trie): Bytes
  {
    match t
    case Nil => []
    case Stub(d) => [0] + Int32(|d|) + d
    case Leaf(k, v) => [1] + Int32(|k|) + k + Int32(|v|) + v
    case Empty => [2]
    case Inner(l, r) => [3] + Int32(ByteSize(l)) + Serialize(l) + Int32(ByteSize(r)) + Serialize(r)
  }

  datatype Read<+T> = Fail | Done(value: T, rest: Bytes)

  /** A length and that many bytes; a length that is not positive or runs past the input is an error. */
  function ReadField(b: Bytes): (r: Read<Bytes>)
    ensures r.Done? ==> |r.rest| < |b|
  {
    if |b| < 4 then Fail
    else
      var n := Value32(b);
      if n <= 0 || |b| < 4 + n then Fail else Done(b[4..4 + n], b[4 + n..])
  }

  /** The two fields of a leaf. */
  function ReadLeaf(b: Bytes): (r: Read<Trie>)
    ensures r.Done? ==> |r.rest| < |b|
  {
    var k := ReadField(b);
    if k.Fail? then Fail
    else
      var v := ReadField(k.rest);
      if v.Fail? then Fail else Done(Leaf(k.value, v.value), v.rest)
  }

  /** A child: its announced length only says whether there is one. */
  function ReadChild(b: Bytes): (r: Read<Trie>)
    ensures r.Done? ==> |r.rest| < |b|
    decreases |b|, 0
  {
    if |b| < 4 then Fail
    else if Value32(b) > 0 then
      Deserialize(b[4..])
    else Done(Nil, b[4..])
  }

  /** `DeserializeNode`. */
  function Deserialize(b: Bytes): (r: Read<Trie>)
    ensures r.Done? ==> |r.rest| < |b|
    decreases |b|, 1
  {
    if b == [] then Fail
    else if b[0] == 0 then
      var f := ReadField(b[1..]);
      if f.Fail? then Fail else Done(Stub(f.value), f.rest)
    else if b[0] == 1 then ReadLeaf(b[1..])
    else if b[0] == 2 then Done(Empty, b[1..])
    else if b[0] == 3 then
      var l := ReadChild(b[1..]);
      if l.Fail? then Fail
      else
        var r := ReadChild(l.rest);
        if r.Fail? then Fail else Done(Inner(l.value, r.value), r.rest)
    else Fail
  }

  /** Every length that is written fits in an int32. */
  predicate Small(t: Trie)
  {
    match t
    case Nil => true
    case Stub(d) => |d| <= INT32_MAX
    case Empty => true
    case Leaf(k, v) => |k| <= INT32_MAX && |v| <= INT32_MAX
    case Inner(l, r) => Small(l) && Small(r) && ByteSize(l) <= INT32_MAX && ByteSize(r) <= INT32_MAX
  }

  /** No field is empty; only a child may be nil. */
  predicate Filled(t: Trie)
  {
    match t
    case Nil => false
    case Stub(d) => 0 < |d|
    case Empty => true
    case Leaf(k, v) => 0 < |k| && 0 < |v|
    case Inner(l, r) => (l.Nil? || Filled(l)) && (r.Nil? || Filled(r))
  }

  lemma Int32RoundTrip(x: nat, b: Bytes)
    requires x <= INT32_MAX
    ensures Value32(Int32(x) + b) == x
  {
    var c := Int32(x) + b;
    assert c[0] == x / 0x100_0000 && c[1] == x / 0x1_0000 % 0x100 && c[2] == x / 0x100 % 0x100 && c[3] == x % 0x100;
  }

  lemma {:induction false} SizeIsLength(t: Trie)
    ensures |Serialize(t)| == ByteSize(t) && (ByteSize(t) == 0 <==> t.Nil?)
  {
    if t.Inner? {
      SizeIsLength(t.left);
      SizeIsLength(t.right);
    }
  }

  lemma FieldRoundTrip(f: Bytes, b: Bytes)
    requires 0 < |f| <= INT32_MAX
    ensures ReadField(Int32(|f|) + f + b) == Done(f, b)
  {
    var s := Int32(|f|) + f + b;
    assert s == Int32(|f|) + (f + b);
    Int32RoundTrip(|f|, f + b);
    assert s[4..4 + |f|] == f && s[4 + |f|..] == b;
  }

  lemma LeafRoundTrip(k: Bytes, v: Bytes, b: Bytes)
    requires 0 < |k| <= INT32_MAX && 0 < |v| <= INT32_MAX
    ensures Deserialize(Serialize(Leaf(k, v)) + b) == Done(Leaf(k, v), b)
  {
    var s := Serialize(Leaf(k, v)) + b;
    assert s[1..] == Int32(|k|) + k + (Int32(|v|) + v + b);
    FieldRoundTrip(k, Int32(|v|) + v + b);
    FieldRoundTrip(v, b);
  }

  lemma StubRoundTrip(d: Bytes, b: Bytes)
    requires 0 < |d| <= INT32_MAX
    ensures Deserialize(Serialize(Stub(d)) + b) == Done(Stub(d), b)
  {
    assert (Serialize(Stub(d)) + b)[1..] == Int32(|d|) + d + b;
    FieldRoundTrip(d, b);
  }

  /** Where the two children of an encoded interior node begin. */
  lemma InnerLayout(l: Trie, r: Trie, b: Bytes)
    ensures var s := Serialize(Inner(l, r)) + b;
            && s[0] == 3
            && s[1..] == Int32(ByteSize(l)) + Serialize(l) + (Int32(ByteSize(r)) + Serialize(r) + b)
  {
    AfterFirst(3, Int32(ByteSize(l)), Serialize(l), Int32(ByteSize(r)), Serialize(r), b);
  }

  lemma AfterFirst(k: Byte, w: Bytes, x: Bytes, y: Bytes, z: Bytes, b: Bytes)
    ensures var s := [k] + w + x + y + z + b; s[0] == k && s[1..] == w + x + (y + z + b)
  {
  }

  lemma {:induction false} ChildRoundTrip(t: Trie, b: Bytes)
    requires (t.Nil? || Filled(t)) && Small(t) && ByteSize(t) <= INT32_MAX
    ensures ReadChild(Int32(ByteSize(t)) + Serialize(t) + b) == Done(t, b)
    decreases t, 1
  {
    var s := Int32(ByteSize(t)) + Serialize(t) + b;
    assert s == Int32(ByteSize(t)) + (Serialize(t) + b);
    SizeIsLength(t);
    Int32RoundTrip(ByteSize(t), Serialize(t) + b);
    assert s[4..] == Serialize(t) + b;
    if t.Nil? {
      assert [] + b == b;
    } else {
      RoundTrip(t, b);
    }
  }

  /** Reading back an encoded node returns the node and exactly what followed it. */
  lemma {:induction false} RoundTrip(t: Trie, b: Bytes)
    requires Small(t) && Filled(t)
    ensures Deserialize(Serialize(t) + b) == Done(t, b)
    decreases t, 0
  {
    match t
    case Stub(d) => StubRoundTrip(d, b);
    case Leaf(k, v) => LeafRoundTrip(k, v, b);
    case Empty => assert (Serialize(t) + b)[1..] == b;
    case Inner(l, r) =>
      InnerLayout(l, r, b);
      ChildRoundTrip(l, Int32(ByteSize(r)) + Serialize(r) + b);
      ChildRoundTrip(r, b);
  }

  lemma FieldEmpty(b: Bytes)
    ensures ReadField(Int32(0) + b).Fail?
  {
    Int32RoundTrip(0, b);
  }

  lemma LeafUnfilled(k: Bytes, v: Bytes, b: Bytes)
    requires Small(Leaf(k, v)) && !Filled(Leaf(k, v))
    ensures Deserialize(Serialize(Leaf(k, v)) + b).Fail?
  {
    var s := Serialize(Leaf(k, v)) + b;
    var tail := Int32(|v|) + v + b;
    assert s[1..] == Int32(|k|) + k + tail;
    if k == [] {
      assert s[1..] == Int32(0) + tail;
      FieldEmpty(tail);
    } else {
      FieldRoundTrip(k, tail);
      assert tail == Int32(0) + b;
      FieldEmpty(b);
    }
  }

  /** The encoding of a node with an empty field cannot be read back: the reader refuses it. */
  lemma {:induction false} Unfilled(t: Trie, b: Bytes)
    requires Small(t) && !t.Nil? && !Filled(t)
    ensures Deserialize(Serialize(t) + b).Fail?
    decreases t, 0
  {
    match t
    case Stub(d) =>
      assert (Serialize(t) + b)[1..] == Int32(0) + b;
      FieldEmpty(b);
    case Leaf(k, v) => LeafUnfilled(k, v, b);
    case Inner(l, r) =>
      InnerLayout(l, r, b);
      var tail := Int32(ByteSize(r)) + Serialize(r) + b;
      if l.Nil? || Filled(l) {
        ChildRoundTrip(l, tail);
        ChildUnfilled(r, b);
      } else {
        ChildUnfilled(l, tail);
      }
  }

  lemma {:induction false} ChildUnfilled(t: Trie, b: Bytes)
    requires Small(t) && !t.Nil? && !Filled(t) && ByteSize(t) <= INT32_MAX
    ensures ReadChild(Int32(ByteSize(t)) + Serialize(t) + b).Fail?
    decreases t, 1
  {
    var s := Int32(ByteSize(t)) + Serialize(t) + b;
    assert s == Int32(ByteSize(t)) + (Serialize(t) + b);
    SizeIsLength(t);
    Int32RoundTrip(ByteSize(t), Serialize(t) + b);
    assert s[4..] == Serialize(t) + b;
    Unfilled(t, b);
  }

  /** Nodes whose lengths fit are read back exactly if and only if no field is empty. */
  lemma RoundTripIff(t: Trie, b: Bytes)
    requires Small(t) && !t.Nil?
    ensures Deserialize(Serialize(t) + b) == Done(t, b) <==> Filled(t)
  {
    if Filled(t) {
      RoundTrip(t, b);
    } else {
      Unfilled(t, b);
    }
  }

  /** No encoding is a prefix of another: two nodes with one encoding, whatever follows, are one node. */
  lemma PrefixFree(s: Trie, t: Trie, b: Bytes, c: Bytes)
    requires Small(s) && Filled(s) && Small(t) && Filled(t) && Serialize(s) + b == Serialize(t) + c
    ensures s == t && b == c
  {
    RoundTrip(s, b);
    RoundTrip(t, c);
  }

  // ----- what the reader takes -----

  /** The byte that announces a node. */
  function Kind(t: Trie): Byte
  {
    match t
    case Stub(_) => 0
    case Leaf(_, _) => 1
    case Empty => 2
    case _ => 3
  }

  /** The first `n` bytes were read. */
  predicate Consumed(b: Bytes, rest: Bytes, n: nat)
  {
    n <= |b| && rest == b[n..]
  }

  lemma FieldReads(b: Bytes)
    requires ReadField(b).Done?
    ensures var r := ReadField(b);
            && 0 < |r.value| <= INT32_MAX && |r.value| == Value32(b) && r.value == b[4..4 + |r.value|]
            && Consumed(b, r.rest, 4 + |r.value|)
  {
  }

  lemma Then(b: Bytes, c: Bytes, d: Bytes, m: nat, n: nat)
    requires Consumed(b, c, m) && Consumed(c, d, n)
    ensures Consumed(b, d, m + n)
  {
  }

  lemma {:induction false} ChildReads(b: Bytes)
    requires ReadChild(b).Done?
    ensures var r := ReadChild(b);
            && (r.value.Nil? <==> Value32(b) <= 0) && (r.value.Nil? || Filled(r.value))
            && Consumed(b, r.rest, 4 + ByteSize(r.value))
    decreases |b|, 0
  {
    hide ByteSize, Filled;
    if Value32(b) > 0 {
      NodeReads(b[4..]);
      Then(b, b[4..], ReadChild(b).rest, 4, ByteSize(ReadChild(b).value));
    } else {
      assert ByteSize(Nil) == 0 by { SizeIsLength(Nil); }
    }
  }

  lemma LeafReads(c: Bytes)
    requires ReadLeaf(c).Done?
    ensures var r := ReadLeaf(c); r.value.Leaf? && Filled(r.value) && Consumed(c, r.rest, ByteSize(r.value) - 1)
  {
    hide Consumed, ReadField;
    var k, r := ReadField(c), ReadLeaf(c);
    FieldReads(c);
    FieldReads(k.rest);
    Then(c, k.rest, r.rest, 4 + |r.value.key|, 4 + |r.value.value|);
  }

  /** The two children of an interior node. */
  lemma {:induction false} ChildrenRead(c: Bytes)
    requires ReadChild(c).Done? && ReadChild(ReadChild(c).rest).Done?
    ensures var l, r := ReadChild(c), ReadChild(ReadChild(c).rest);
            Filled(Inner(l.value, r.value)) && Consumed(c, r.rest, ByteSize(Inner(l.value, r.value)) - 1)
    decreases |c|, 1
  {
    hide Consumed, ReadChild;
    var l, r := ReadChild(c), ReadChild(ReadChild(c).rest);
    ChildReads(c);
    ChildReads(l.rest);
    Then(c, l.rest, r.rest, 4 + ByteSize(l.value), 4 + ByteSize(r.value));
  }

  /**
   Whatever bytes the reader takes for a node, it takes exactly the node's size of them, the first one
   announces its kind, and the node has no empty field.
   */
  lemma {:induction false} NodeReads(b: Bytes)
    requires Deserialize(b).Done?
    ensures var r := Deserialize(b);
            !r.value.Nil? && Filled(r.value) && b[0] == Kind(r.value) && Consumed(b, r.rest, ByteSize(r.value))
    decreases |b|, 1
  {
    hide Consumed, ReadField, ReadLeaf, ReadChild;
    var r := Deserialize(b);
    var c := b[1..];
    assert Consumed(b, c, 1) by { Skip(b); }
    if b[0] == 0 {
      FieldReads(c);
      Then(b, c, r.rest, 1, 4 + |r.value.hash|);
    } else if b[0] == 1 {
      LeafReads(c);
      Then(b, c, r.rest, 1, ByteSize(r.value) - 1);
    } else if b[0] == 3 {
      ChildrenRead(c);
      Then(b, c, r.rest, 1, ByteSize(r.value) - 1);
    }
  }

  lemma Skip(b: Bytes)
    requires |b| > 0
    ensures Consumed(b, b[1..], 1)
  {
  }

  // ----- an example -----

  lemma ExampleLeaf(t: Trie)
    requires t == Leaf([7], [8, 9])
    ensures Serialize(t) == [1, 0, 0, 0, 1, 7, 0, 0, 0, 2, 8, 9] && ByteSize(t) == 12
  {
    assert Int32(1) == [0, 0, 0, 1] && Int32(2) == [0, 0, 0, 2];
  }

  lemma ExampleStub(t: Trie)
    requires t == Stub([5])
    ensures Serialize(t) == [0, 0, 0, 0, 1, 5] && ByteSize(t) == 6
  {
    assert Int32(1) == [0, 0, 0, 1];
  }

  lemma ExampleInner(s: Trie, t: Trie)
    requires s == Stub([5]) && t == Inner(s, Empty)
    ensures Serialize(t) == [3, 0, 0, 0, 6, 0, 0, 0, 0, 1, 5, 0, 0, 0, 1, 2] && ByteSize(t) == 16
  {
    hide Int32;
    ExampleStub(s);
    assert Serialize(t) == [3] + Int32(6) + Serialize(s) + Int32(1) + [2];
    assert Int32(6) == [0, 0, 0, 6] && Int32(1) == [0, 0, 0, 1] by { SmallInts(); }
  }

  lemma SmallInts()
    ensures Int32(1) == [0, 0, 0, 1] && Int32(6) == [0, 0, 0, 6] && Int32(12) == [0, 0, 0, 12]
    ensures Int32(16) == [0, 0, 0, 16]
  {
  }

  lemma Concatenate(a: Bytes, b: Bytes, c: Bytes, d: Bytes)
    requires a == [0, 0, 0, 12] && b == [1, 0, 0, 0, 1, 7, 0, 0, 0, 2, 8, 9] && c == [0, 0, 0, 16]
    requires d == [3, 0, 0, 0, 6, 0, 0, 0, 0, 1, 5, 0, 0, 0, 1, 2]
    ensures [3] + a + b + c + d ==
            [3, 0, 0, 0, 12, 1, 0, 0, 0, 1, 7, 0, 0, 0, 2, 8, 9,
             0, 0, 0, 16, 3, 0, 0, 0, 6, 0, 0, 0, 0, 1, 5, 0, 0, 0, 1, 2]
  {
  }

  /** A tree with all four kinds of nodes, byte by byte: kinds 0 to 3, lengths most significant byte first. */
  lemma Example(l: Trie, s: Trie, r: Trie)
    requires l == Leaf([7], [8, 9]) && s == Stub([5]) && r == Inner(s, Empty)
    ensures Serialize(Inner(l, r)) ==
            [3, 0, 0, 0, 12, 1, 0, 0, 0, 1, 7, 0, 0, 0, 2, 8, 9,
             0, 0, 0, 16, 3, 0, 0, 0, 6, 0, 0, 0, 0, 1, 5, 0, 0, 0, 1, 2]
  {
    hide Int32, ByteSize;
    ExampleLeaf(l);
    ExampleInner(s, r);
    SmallInts();
    Concatenate(Int32(12), Serialize(l), Int32(16), Serialize(r));
  }

  /** Lengths of more than one byte, and a negative one. */
  lemma ExampleInts()
    ensures Int32(0x1234_5678) == [0x12, 0x34, 0x56, 0x78] && Value32([0xff, 0xff, 0xff, 0xfe]) == -2
  {
  }
}
