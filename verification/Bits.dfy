/** Bytes and the big-endian bit order in which a key steers a descent. */
module Bits {

  type Byte = x: int | 0 <= x < 256
  type Bytes = seq<Byte>

  datatype Option<+T> = None | Some(value: T)

  /** The mask `1 << (7 - i)`. */
  function Mask(i: nat): (w: nat)
    requires i < 8
    ensures w > 0
  {
    if i == 0 then 128 else if i == 1 then 64 else if i == 2 then 32 else if i == 3 then 16
    else if i == 4 then 8 else if i == 5 then 4 else if i == 6 then 2 else 1
  }

  /** Bit `i` of a byte, most significant first. */
  predicate ByteBit(b: Byte, i: nat)
    requires i < 8
  {
    (b / Mask(i)) % 2 == 1
  }

  /** Bit `i` of a byte string. The source indexes the slice at `i / 8` and so demands `i < 8 * |k|`. */
  predicate Bit(k: Bytes, i: nat)
    requires i < 8 * |k|
  {
    ByteBit(k[i / 8], i % 8)
  }

  /** Equal lengths and equal first `d` bits: both keys take the same `d` turns. */
  ghost predicate Agree(a: Bytes, b: Bytes, d: nat)
  {
    && |a| == |b|
    && d <= 8 * |a|
    && forall i :: 0 <= i < d ==> Bit(a, i) == Bit(b, i)
  }

  /** Shifting right by one more place drops exactly the next bit. */
  lemma NextBit(x: Byte, y: Byte, i: nat)
    requires 1 <= i < 8
    requires x / Mask(i - 1) == y / Mask(i - 1)
    requires ByteBit(x, i) == ByteBit(y, i)
    ensures x / Mask(i) == y / Mask(i)
  {
    assert Mask(i - 1) == 2 * Mask(i);
    Halve(x, i);
    Halve(y, i);
  }

  lemma Halve(x: Byte, i: nat)
    requires 1 <= i < 8
    ensures x / Mask(i) / 2 == x / Mask(i - 1)
  {
    if i == 1 {
    } else if i == 2 {
    } else if i == 3 {
    } else if i == 4 {
    } else if i == 5 {
    } else if i == 6 {
    } else {
    }
  }

  lemma SameByte(x: Byte, y: Byte, i: nat)
    requires i < 8
    requires forall j :: 0 <= j <= i ==> ByteBit(x, j) == ByteBit(y, j)
    ensures x / Mask(i) == y / Mask(i)
  {
    assert ByteBit(x, i) == ByteBit(y, i);
    if i == 0 {
      assert x / 128 < 2 && y / 128 < 2;
    } else {
      SameByte(x, y, i - 1);
      NextBit(x, y, i);
    }
  }

  /** A key is determined by its bits, so two different keys part ways before their bits run out. */
  lemma AgreeOnAll(a: Bytes, b: Bytes)
    requires Agree(a, b, 8 * |a|)
    ensures a == b
  {
    forall j | 0 <= j < |a|
      ensures a[j] == b[j]
    {
      forall i | 0 <= i < 8
        ensures ByteBit(a[j], i) == ByteBit(b[j], i)
      {
        assert Bit(a, 8 * j + i) == Bit(b, 8 * j + i);
        assert (8 * j + i) / 8 == j && (8 * j + i) % 8 == i;
      }
      SameByte(a[j], b[j], 7);
    }
  }

  /** The bits up to `i`, the first counting 128 and the last 1. */
  function BitSum(b: Byte, i: nat): nat
    requires i < 8
  {
    (if i == 0 then 0 else BitSum(b, i - 1)) + (if ByteBit(b, i) then Mask(i) else 0)
  }

  /** Clearing the places after bit `i` leaves the sum of the bits up to it. */
  lemma {:induction false} SumIs(b: Byte, i: nat)
    requires i < 8
    ensures BitSum(b, i) == b / Mask(i) * Mask(i)
  {
    if i == 0 {
      assert b / 128 < 2;
    } else {
      SumIs(b, i - 1);
      Halve(b, i);
      assert Mask(i - 1) == 2 * Mask(i);
    }
  }

  /** A byte is the sum of its bits. */
  lemma ByteIsSum(b: Byte)
    ensures b == BitSum(b, 7) && Mask(0) == 128 && Mask(7) == 1
  {
    SumIs(b, 7);
  }

  /** The bits of a key are those of its first byte, then those of its second, and so on. */
  lemma BitOrder(k: Bytes, j: nat, i: nat)
    requires j < |k| && i < 8
    ensures Bit(k, 8 * j + i) == ByteBit(k[j], i) && (Bit(k, 0) <==> k[0] >= 128)
  {
    assert (8 * j + i) / 8 == j && (8 * j + i) % 8 == i;
  }
}
