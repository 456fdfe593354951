/** Bech32: regrouping bits, the checksum, and the round trip of encoding and decoding. */
module Bech32 {
  import opened Bits

  /** The source's uint32. Bytes are words below 256, squashed bytes words below 32. */
  type Word = bv32

  // ----- single bits; shifts by table, so that every shift amount is a numeral -----

  /** Bit `i`, counted from the least significant. */
  predicate At(x: Word, i: nat)
    requires i < 12
  {
    if i == 0 then x & 1 != 0
    else if i == 1 then x & 2 != 0
    else if i == 2 then x & 4 != 0
    else if i == 3 then x & 8 != 0
    else if i == 4 then x & 16 != 0
    else if i == 5 then x & 32 != 0
    else if i == 6 then x & 64 != 0
    else if i == 7 then x & 128 != 0
    else if i == 8 then x & 256 != 0
    else if i == 9 then x & 512 != 0
    else if i == 10 then x & 1024 != 0
    else x & 2048 != 0
  }

  function Shr(x: Word, k: nat): Word
    requires k <= 7
  {
    if k == 0 then x
    else if k == 1 then x >> 1
    else if k == 2 then x >> 2
    else if k == 3 then x >> 3
    else if k == 4 then x >> 4
    else if k == 5 then x >> 5
    else if k == 6 then x >> 6
    else x >> 7
  }

  function Shl(x: Word, k: nat): Word
    requires k <= 8
  {
    if k == 0 then x
    else if k == 1 then x << 1
    else if k == 2 then x << 2
    else if k == 3 then x << 3
    else if k == 4 then x << 4
    else if k == 5 then x << 5
    else if k == 6 then x << 6
    else if k == 7 then x << 7
    else x << 8
  }

  function MaxValue(w: nat): Word
    requires w == 5 || w == 8
  {
    if w == 5 then 31 else 255
  }

  /** No bit is set above the low `w`. */
  predicate Small(x: Word, w: nat)
    requires w == 5 || w == 8
  {
    x <= MaxValue(w)
  }

  predicate Narrow(s: seq<Word>, w: nat)
    requires w == 5 || w == 8
  {
    forall i :: 0 <= i < |s| ==> Small(s[i], w)
  }

  /** The low `k` bits, most significant first. */
  function BitsOf(x: Word, k: nat): seq<bool>
    requires k <= 12
  {
    seq(k, j requires 0 <= j < k => At(x, k - 1 - j))
  }

  /** The bits of a byte string, `w` from each byte. */
  function Stream(s: seq<Word>, w: nat): seq<bool>
    requires w == 5 || w == 8
  {
    if s == [] then [] else Stream(s[..|s| - 1], w) + BitsOf(s[|s| - 1], w)
  }

  lemma AtShove(x: Word, c: Word, w: nat, i: nat)
    requires (w == 5 || w == 8) && Small(c, w) && i < 12
    ensures At(Shl(x, w) | c, i) == if i < w then At(c, i) else At(x, i - w)
  {
    if i == 0 {
    } else if i == 1 {
    } else if i == 2 {
    } else if i == 3 {
    } else if i == 4 {
    } else if i == 5 {
    } else if i == 6 {
    } else if i == 7 {
    } else if i == 8 {
    } else if i == 9 {
    } else if i == 10 {
    } else {
    }
  }

  lemma AtShr5(x: Word, r: nat)
    requires r <= 7
    ensures var d := Shr(x, r) & 31;
            && At(d, 0) == At(x, r) && At(d, 1) == At(x, r + 1) && At(d, 2) == At(x, r + 2)
            && At(d, 3) == At(x, r + 3) && At(d, 4) == At(x, r + 4)
  {
    if r == 0 {
    } else if r == 1 {
    } else if r == 2 {
    } else if r == 3 {
    } else if r == 4 {
    } else if r == 5 {
    } else if r == 6 {
    } else {
    }
  }

  lemma AtShr8(x: Word, r: nat)
    requires r <= 4
    ensures var d := Shr(x, r) & 255;
            && At(d, 0) == At(x, r) && At(d, 1) == At(x, r + 1) && At(d, 2) == At(x, r + 2)
            && At(d, 3) == At(x, r + 3) && At(d, 4) == At(x, r + 4) && At(d, 5) == At(x, r + 5)
            && At(d, 6) == At(x, r + 6) && At(d, 7) == At(x, r + 7)
  {
    if r == 0 {
    } else if r == 1 {
    } else if r == 2 {
    } else if r == 3 {
    } else {
    }
  }

  lemma AtShl(x: Word, k: nat, w: nat, i: nat)
    requires (w == 5 || w == 8) && k <= w && i < w
    ensures At(Shl(x, k) & MaxValue(w), i) == (i >= k && At(x, i - k))
  {
    if k == 0 {
    } else if k == 1 {
    } else if k == 2 {
    } else if k == 3 {
    } else if k == 4 {
    } else if k == 5 {
    } else if k == 6 {
    } else if k == 7 {
    } else {
    }
  }

  /** The `w` bits above the low `r`. */
  function Digit(x: Word, r: nat, w: nat): Word
    requires (w == 5 || w == 8) && r + w <= 12
  {
    Shr(x, r) & MaxValue(w)
  }

  lemma AtShr(x: Word, r: nat, w: nat, i: nat)
    requires (w == 5 || w == 8) && r + w <= 12 && i < w
    ensures At(Digit(x, r, w), i) == At(x, r + i)
  {
    hide At, Shr;
    if w == 5 {
      AtShr5(x, r);
    } else {
      AtShr8(x, r);
    }
  }

  // ----- regrouping -----

  /** Bits shifted in stand after the bits that were there. */
  lemma ShoveBits(x: Word, c: Word, s: nat, w: nat)
    requires (w == 5 || w == 8) && Small(c, w) && s + w <= 12
    ensures BitsOf(Shl(x, w) | c, s + w) == BitsOf(x, s) + BitsOf(c, w)
  {
    hide At, Shl;
    var a, b := BitsOf(Shl(x, w) | c, s + w), BitsOf(x, s) + BitsOf(c, w);
    forall j | 0 <= j < s + w
      ensures a[j] == b[j]
    {
      AtShove(x, c, w, s + w - 1 - j);
    }
  }

  /** The digit taken off holds the first bits, the rest stays. */
  lemma EmitBits(x: Word, r: nat, w: nat)
    requires (w == 5 || w == 8) && r + w <= 12
    ensures BitsOf(x, r + w) == BitsOf(Digit(x, r, w), w) + BitsOf(x, r)
  {
    hide At, Digit;
    var a, b := BitsOf(x, r + w), BitsOf(Digit(x, r, w), w) + BitsOf(x, r);
    forall j | 0 <= j < r + w
      ensures a[j] == b[j]
    {
      if j < w {
        AtShr(x, r, w, w - 1 - j);
      }
    }
  }

  lemma MaskSmall(x: Word, w: nat)
    requires w == 5 || w == 8
    ensures Small(x & MaxValue(w), w)
  {
  }

  /** The low `s` bits moved to the top of a digit, zeros below. */
  function Pad(x: Word, s: nat, w: nat): Word
    requires (w == 5 || w == 8) && s <= w
  {
    Shl(x, w - s) & MaxValue(w)
  }

  lemma PadSmall(x: Word, s: nat, w: nat)
    requires (w == 5 || w == 8) && s <= w
    ensures Small(Pad(x, s, w), w)
  {
    hide Shl;
    MaskSmall(Shl(x, w - s), w);
  }

  lemma AtPad(x: Word, s: nat, w: nat, i: nat)
    requires (w == 5 || w == 8) && s <= w && i < w
    ensures At(Pad(x, s, w), i) == (i >= w - s && At(x, i - (w - s)))
  {
    hide At, Shl;
    AtShl(x, w - s, w, i);
  }

  lemma PadBits(x: Word, s: nat, w: nat)
    requires (w == 5 || w == 8) && s <= w
    ensures BitsOf(Pad(x, s, w), w) == BitsOf(x, s) + Zeros(w - s) && Small(Pad(x, s, w), w)
  {
    hide At, Pad, Small, MaxValue;
    PadSmall(x, s, w);
    var a, b := BitsOf(Pad(x, s, w), w), BitsOf(x, s) + Zeros(w - s);
    forall j | 0 <= j < w
      ensures a[j] == b[j]
    {
      AtPad(x, s, w, w - 1 - j);
    }
  }

  function Zeros(k: nat): seq<bool> { seq(k, _ => false) }

  /** The loop variables: the accumulator, the number of bits waiting in it, and the output. */
  datatype Regrouper = Regrouper(accumulator: Word, bitstash: nat, output: seq<Word>)

  /** The inner loop: emit while a whole output digit is waiting. */
  function Drain(g: Regrouper, ow: nat): (r: Regrouper)
    requires (ow == 5 || ow == 8) && g.bitstash <= 12
    ensures r.bitstash < ow
    decreases g.bitstash
  {
    if g.bitstash < ow then g
    else
      var rest := g.bitstash - ow;
      Drain(Regrouper(g.accumulator, rest, g.output + [Digit(g.accumulator, rest, ow)]), ow)
  }

  /** One input byte; the shift drops what leaves the 32 bits. */
  function Feed(g: Regrouper, c: Word, iw: nat): (r: Regrouper)
    requires (iw == 5 || iw == 8) && g.bitstash < 13 - iw
    ensures r.bitstash < 13 - iw
  {
    Drain(Regrouper(Shl(g.accumulator, iw) | c, g.bitstash + iw, g.output), 13 - iw)
  }

  function FeedAll(input: seq<Word>, iw: nat): (r: Regrouper)
    requires iw == 5 || iw == 8
    ensures r.bitstash < 13 - iw
  {
    if input == [] then Regrouper(0, 0, [])
    else Feed(FeedAll(input[..|input| - 1], iw), input[|input| - 1], iw)
  }

  /** What is left at the end: padded from 8 to 5; from 5 to 8 less than five bits, all zero, or an error. */
  function Finish(g: Regrouper, iw: nat): Option<seq<Word>>
    requires (iw == 5 || iw == 8) && g.bitstash < 13 - iw
  {
    if iw == 8 then
      Some(if g.bitstash != 0 then g.output + [Pad(g.accumulator, g.bitstash, 5)] else g.output)
    else if g.bitstash >= 5 || Pad(g.accumulator, g.bitstash, 8) != 0 then None
    else Some(g.output)
  }

  /** `ByteSquasher` from width `iw` to the other one of 5 and 8: None also for a byte with high bits set. */
  function Squash(input: seq<Word>, iw: nat): Option<seq<Word>>
    requires iw == 5 || iw == 8
  {
    if Narrow(input, iw) then Finish(FeedAll(input, iw), iw) else None
  }

  lemma FeedNone(iw: nat)
    requires iw == 5 || iw == 8
    ensures FeedAll([], iw) == Regrouper(0, 0, [])
  {
  }

  lemma FeedNext(input: seq<Word>, i: nat, iw: nat)
    requires (iw == 5 || iw == 8) && i < |input|
    ensures FeedAll(input[..i + 1], iw) == Feed(FeedAll(input[..i], iw), input[i], iw)
  {
    hide Feed;
    assert input[..i + 1][..i] == input[..i];
  }

  lemma DrainNext(g: Regrouper, ow: nat)
    requires (ow == 5 || ow == 8) && ow <= g.bitstash <= 12
    ensures var rest := g.bitstash - ow;
            Drain(g, ow) ==
            Drain(Regrouper(g.accumulator, rest, g.output + [Digit(g.accumulator, rest, ow)]), ow)
  {
    hide Digit;
  }

  lemma DrainDone(g: Regrouper, ow: nat)
    requires (ow == 5 || ow == 8) && g.bitstash < ow
    ensures Drain(g, ow) == g
  {
  }

  lemma NarrowNone(w: nat)
    requires w == 5 || w == 8
    ensures Narrow([], w)
  {
  }

  lemma NarrowAppend(s: seq<Word>, d: Word, w: nat)
    requires (w == 5 || w == 8) && Narrow(s, w) && Small(d, w)
    ensures Narrow(s + [d], w)
  {
    hide Small;
  }

  lemma NarrowNext(input: seq<Word>, i: nat, w: nat)
    requires (w == 5 || w == 8) && i < |input| && Narrow(input[..i], w)
    ensures Small(input[i], w) ==> Narrow(input[..i + 1], w)
    ensures !Small(input[i], w) ==> !Narrow(input, w)
  {
    hide Small;
    assert forall k :: 0 <= k < i ==> input[..i + 1][k] == input[..i][k];
  }

  /** The inner loop of `ByteSquasher`. */
  method EmitWhole(g: Regrouper, ow: nat) returns (r: Regrouper)
    requires (ow == 5 || ow == 8) && g.bitstash <= 12
    ensures r == Drain(g, ow)
  {
    hide Digit, Drain;
    var bitstash, output := g.bitstash, g.output;
    while bitstash >= ow
      invariant 0 <= bitstash <= 12
      invariant Drain(g, ow) == Drain(Regrouper(g.accumulator, bitstash, output), ow)
    {
      DrainNext(Regrouper(g.accumulator, bitstash, output), ow);
      bitstash := bitstash - ow;
      output := output + [Digit(g.accumulator, bitstash, ow)];
    }
    r := Regrouper(g.accumulator, bitstash, output);
    DrainDone(r, ow);
  }

  method ByteSquasher(input: seq<Word>, iw: nat) returns (r: Option<seq<Word>>)
    requires iw == 5 || iw == 8
    ensures r == Squash(input, iw)
  {
    hide Shl, FeedAll, Drain, Small, Finish, Narrow;
    FeedNone(iw);
    NarrowNone(iw);
    assert input[..0] == [];
    var g := Regrouper(0, 0, []);
    for i := 0 to |input|
      invariant g == FeedAll(input[..i], iw) && Narrow(input[..i], iw)
    {
      var c := input[i];
      NarrowNext(input, i, iw);
      if !Small(c, iw) {
        return None;
      }
      FeedNext(input, i, iw);
      g := EmitWhole(Regrouper(Shl(g.accumulator, iw) | c, g.bitstash + iw, g.output), 13 - iw);
    }
    assert input[..|input|] == input;
    r := Finish(g, iw);
  }

  /** All bits seen so far: those in the output and those waiting. */
  function Seen(g: Regrouper, ow: nat): seq<bool>
    requires (ow == 5 || ow == 8) && g.bitstash <= 12
  {
    Stream(g.output, ow) + BitsOf(g.accumulator, g.bitstash)
  }

  lemma DigitSmall(x: Word, r: nat, w: nat)
    requires (w == 5 || w == 8) && r + w <= 12
    ensures Small(Digit(x, r, w), w)
  {
    hide Shr;
    MaskSmall(Shr(x, r), w);
  }

  lemma Assoc(a: seq<bool>, b: seq<bool>, c: seq<bool>)
    ensures (a + b) + c == a + (b + c)
  {
  }

  lemma StreamAppend(s: seq<Word>, d: Word, w: nat)
    requires w == 5 || w == 8
    ensures Stream(s + [d], w) == Stream(s, w) + BitsOf(d, w)
  {
    assert (s + [d])[..|s|] == s;
  }

  lemma {:induction false} DrainKeeps(g: Regrouper, ow: nat)
    requires (ow == 5 || ow == 8) && g.bitstash <= 12 && Narrow(g.output, ow)
    ensures Seen(Drain(g, ow), ow) == Seen(g, ow) && Narrow(Drain(g, ow).output, ow)
    decreases g.bitstash
  {
    hide BitsOf, Digit, Stream, Small, Narrow, Drain;
    if g.bitstash < ow {
      DrainDone(g, ow);
    } else {
      var rest := g.bitstash - ow;
      var d := Digit(g.accumulator, rest, ow);
      DigitSmall(g.accumulator, rest, ow);
      NarrowAppend(g.output, d, ow);
      EmitBits(g.accumulator, rest, ow);
      StreamAppend(g.output, d, ow);
      Assoc(Stream(g.output, ow), BitsOf(d, ow), BitsOf(g.accumulator, rest));
      DrainNext(g, ow);
      DrainKeeps(Regrouper(g.accumulator, rest, g.output + [d]), ow);
    }
  }

  lemma FeedKeeps(g: Regrouper, c: Word, iw: nat)
    requires (iw == 5 || iw == 8) && g.bitstash < 13 - iw && Small(c, iw) && Narrow(g.output, 13 - iw)
    ensures Seen(Feed(g, c, iw), 13 - iw) == Seen(g, 13 - iw) + BitsOf(c, iw) && Narrow(Feed(g, c, iw).output, 13 - iw)
  {
    hide Shl, Drain, MaxValue, Small, Narrow, BitsOf, Stream;
    ShoveBits(g.accumulator, c, g.bitstash, iw);
    DrainKeeps(Regrouper(Shl(g.accumulator, iw) | c, g.bitstash + iw, g.output), 13 - iw);
  }

  /** No bit is lost, added or reordered. */
  lemma {:induction false} FeedAllKeeps(input: seq<Word>, iw: nat)
    requires (iw == 5 || iw == 8) && Narrow(input, iw)
    ensures Seen(FeedAll(input, iw), 13 - iw) == Stream(input, iw) && Narrow(FeedAll(input, iw).output, 13 - iw)
    decreases |input|
  {
    if input != [] {
      hide Feed, Seen, Small, BitsOf;
      var n := |input| - 1;
      FeedAllKeeps(input[..n], iw);
      FeedKeeps(FeedAll(input[..n], iw), input[n], iw);
    }
  }

  // ----- regrouping there and back -----

  lemma AtInjective(x: Word, y: Word, w: nat)
    requires (w == 5 || w == 8) && Small(x, w) && Small(y, w) && forall i :: 0 <= i < w ==> At(x, i) == At(y, i)
    ensures x == y
  {
    assert At(x, 0) == At(y, 0) && At(x, 1) == At(y, 1) && At(x, 2) == At(y, 2);
    assert At(x, 3) == At(y, 3) && At(x, 4) == At(y, 4);
    if w == 8 {
      assert At(x, 5) == At(y, 5) && At(x, 6) == At(y, 6) && At(x, 7) == At(y, 7);
    }
  }

  lemma BitsInjective(x: Word, y: Word, w: nat)
    requires (w == 5 || w == 8) && Small(x, w) && Small(y, w) && BitsOf(x, w) == BitsOf(y, w)
    ensures x == y
  {
    hide At, Small;
    forall i | 0 <= i < w
      ensures At(x, i) == At(y, i)
    {
      assert BitsOf(x, w)[w - 1 - i] == BitsOf(y, w)[w - 1 - i];
    }
    AtInjective(x, y, w);
  }

  lemma {:induction false} StreamLength(s: seq<Word>, w: nat)
    requires w == 5 || w == 8
    ensures |Stream(s, w)| == w * |s|
  {
    hide At;
    if s != [] {
      StreamLength(s[..|s| - 1], w);
    }
  }

  lemma StreamLast(s: seq<Word>, w: nat)
    requires (w == 5 || w == 8) && s != []
    ensures Stream(s, w) == Stream(s[..|s| - 1], w) + BitsOf(s[|s| - 1], w)
  {
    hide BitsOf;
  }

  /** Bytes are determined by their bits. */
  lemma {:induction false} StreamInjective(a: seq<Word>, b: seq<Word>, w: nat)
    requires (w == 5 || w == 8) && Narrow(a, w) && Narrow(b, w) && Stream(a, w) == Stream(b, w)
    ensures a == b
    decreases |a|
  {
    hide At, Small, BitsOf, Stream;
    StreamLength(a, w);
    StreamLength(b, w);
    if a != [] {
      var n := |a| - 1;
      StreamLast(a, w);
      StreamLast(b, w);
      StreamLength(a[..n], w);
      StreamLength(b[..n], w);
      Parts(Stream(a[..n], w), BitsOf(a[n], w), Stream(b[..n], w), BitsOf(b[n], w));
      BitsInjective(a[n], b[n], w);
      StreamInjective(a[..n], b[..n], w);
      assert a == a[..n] + [a[n]] && b == b[..n] + [b[n]];
    }
  }

  lemma Parts(a: seq<bool>, b: seq<bool>, c: seq<bool>, d: seq<bool>)
    requires a + b == c + d && |a| == |c|
    ensures a == c && b == d
  {
    assert a == (a + b)[..|a|] && c == (c + d)[..|a|];
    assert b == (a + b)[|a|..] && d == (c + d)[|a|..];
  }

  /** From 8 to 5: the bits, and fewer than five zeros to fill the last digit. */
  lemma SquashDown(data: seq<Word>) returns (pad: nat)
    requires Narrow(data, 8)
    ensures pad < 5 && Squash(data, 8).Some?
    ensures Narrow(Squash(data, 8).value, 5) && Stream(Squash(data, 8).value, 5) == Stream(data, 8) + Zeros(pad)
  {
    hide At, Small, Narrow, Stream, BitsOf, Pad, FeedAll;
    var g := FeedAll(data, 8);
    FeedAllKeeps(data, 8);
    if g.bitstash == 0 {
      pad := 0;
      NoBits(g.accumulator);
      assert Stream(data, 8) + Zeros(0) == Stream(g.output, 5);
    } else {
      pad := 5 - g.bitstash;
      var d := Pad(g.accumulator, g.bitstash, 5);
      PadBits(g.accumulator, g.bitstash, 5);
      NarrowAppend(g.output, d, 5);
      StreamAppend(g.output, d, 5);
      Assoc(Stream(g.output, 5), BitsOf(g.accumulator, g.bitstash), Zeros(pad));
    }
  }

  lemma NoBits(x: Word)
    ensures BitsOf(x, 0) == []
  {
  }

  lemma BitsLength(x: Word, k: nat)
    requires k <= 12
    ensures |BitsOf(x, k)| == k
  {
    hide At;
  }

  /** Zero bits waiting make a zero padding digit. */
  lemma PadZero(x: Word, s: nat)
    requires s <= 8 && BitsOf(x, s) == Zeros(s)
    ensures Pad(x, s, 8) == 0
  {
    hide Pad;
    PadBits(x, s, 8);
    assert BitsOf(0, 8) == Zeros(8);
    assert Zeros(s) + Zeros(8 - s) == Zeros(8);
    BitsInjective(Pad(x, s, 8), 0, 8);
  }

  /** From 5 to 8: the filling is recognised, and the bytes come back. */
  lemma SquashUp(five: seq<Word>, data: seq<Word>, pad: nat)
    requires Narrow(five, 5) && Narrow(data, 8) && pad < 5 && Stream(five, 5) == Stream(data, 8) + Zeros(pad)
    ensures Squash(five, 5) == Some(data)
  {
    hide At, Small, Narrow, Stream, BitsOf, Pad, FeedAll;
    var f := FeedAll(five, 5);
    FeedAllKeeps(five, 5);
    StreamLength(data, 8);
    StreamLength(f.output, 8);
    BitsLength(f.accumulator, f.bitstash);
    assert 8 * |f.output| + f.bitstash == |Seen(f, 8)| == 8 * |data| + pad;
    assert f.bitstash == pad && |f.output| == |data|;
    Parts(Stream(f.output, 8), BitsOf(f.accumulator, f.bitstash), Stream(data, 8), Zeros(pad));
    StreamInjective(f.output, data, 8);
    PadZero(f.accumulator, pad);
  }

  /** Any bytes survive regrouping to five bits and back. */
  lemma SquashRoundTrip(data: seq<Word>)
    requires Narrow(data, 8)
    ensures Squash(data, 8).Some? && Narrow(Squash(data, 8).value, 5)
    ensures Squash(Squash(data, 8).value, 5) == Some(data)
  {
    hide Narrow, Squash, Stream;
    var pad := SquashDown(data);
    SquashUp(Squash(data, 8).value, data, pad);
  }

  // ----- the checksum -----

  function Gen(i: nat): Word
    requires i < 5
  {
    if i == 0 then 0x3b6a57b2 else if i == 1 then 0x26508e6d else if i == 2 then 0x1ea119fa
    else if i == 3 then 0x3d4233dd else 0x2a1462b3
  }

  function Xor(a: Word, b: Word): Word { a ^ b }

  /** The five bits a step shifts out. */
  function Top(x: Word): Word { x >> 25 }

  /** The other bits, moved up. */
  function Rest(x: Word): Word { (x & 0x1ffffff) << 5 }

  function Push(b: Word, x: Word): Word { (b << 5) ^ x }

  /** Less than `5 * n` bits long. */
  predicate Below(b: Word, n: nat)
    requires 1 <= n <= 6
  {
    if n == 1 then b < 0x20 else if n == 2 then b < 0x400 else if n == 3 then b < 0x8000
    else if n == 4 then b < 0x10_0000 else if n == 5 then b < 0x200_0000 else b < 0x4000_0000
  }

  /** The inner loop: the first `i` generators whose bit is set in `top`. */
  function Mixed(chk: Word, top: Word, i: nat): Word
    requires i <= 5
  {
    if i == 0 then chk
    else if At(top, i - 1) then Xor(Mixed(chk, top, i - 1), Gen(i - 1))
    else Mixed(chk, top, i - 1)
  }

  /** One value: shift up five bits, bring it in, and fold what was shifted out back in. */
  function Step(chk: Word, v: Word): Word
  {
    Mixed(Xor(Rest(chk), v), Top(chk), 5)
  }

  function Fold(chk: Word, values: seq<Word>): Word
    decreases |values|
  {
    if values == [] then chk else Fold(Step(chk, values[0]), values[1..])
  }

  method PolyMod(values: seq<Word>) returns (chk: Word)
    ensures chk == Fold(1, values)
  {
    hide At, Xor, Rest, Top, Gen;
    chk := 1;
    for k := 0 to |values|
      invariant Fold(1, values) == Fold(chk, values[k..])
    {
      var top := Top(chk);
      var start := Xor(Rest(chk), values[k]);
      assert values[k..][0] == values[k] && values[k..][1..] == values[k + 1..];
      chk := start;
      for i := 0 to 5
        invariant chk == Mixed(start, top, i)
      {
        if At(top, i) {
          chk := Xor(chk, Gen(i));
        }
      }
    }
  }

  lemma XorAssoc(a: Word, b: Word, c: Word)
    ensures Xor(Xor(a, b), c) == Xor(a, Xor(b, c)) && Xor(a, 0) == a
  {
  }

  /** What the generators add depends on the shifted-out bits alone. */
  lemma {:induction false} MixedIsXor(chk: Word, top: Word, i: nat)
    requires i <= 5
    ensures Mixed(chk, top, i) == Xor(chk, Mixed(0, top, i))
  {
    hide At, Xor, Gen;
    XorAssoc(chk, 0, 0);
    if i > 0 {
      MixedIsXor(chk, top, i - 1);
      XorAssoc(chk, Mixed(0, top, i - 1), Gen(i - 1));
    }
  }

  /** Linearity: a difference in the low 25 bits and the incoming value pass through a step unmixed. */
  lemma StepXor(a: Word, b: Word, v: Word)
    requires Below(b, 5)
    ensures Step(Xor(a, b), v) == Xor(Step(a, 0), Push(b, v))
  {
    hide At, Xor, Rest, Top, Push, Mixed, Below;
    MixedIsXor(Xor(Rest(Xor(a, b)), v), Top(Xor(a, b)), 5);
    MixedIsXor(Xor(Rest(a), 0), Top(a), 5);
    TopUnchanged(a, b);
    Rearrange(a, b, v, Mixed(0, Top(a), 5));
  }

  lemma TopUnchanged(a: Word, b: Word)
    requires Below(b, 5)
    ensures Top(Xor(a, b)) == Top(a)
  {
  }

  lemma Rearrange(a: Word, b: Word, v: Word, f: Word)
    requires Below(b, 5)
    ensures Xor(Xor(Rest(Xor(a, b)), v), f) == Xor(Xor(Xor(Rest(a), 0), f), Push(b, v))
  {
  }

  lemma XorBound(x: Word, y: Word)
    requires Below(x, 6) && Below(y, 6)
    ensures Below(Xor(x, y), 6)
  {
  }

  lemma RestBound(x: Word)
    ensures Below(Rest(x), 6) && Below(0, 6) && Below(1, 6)
  {
  }

  lemma GenBound(i: nat)
    requires i < 5
    ensures Below(Gen(i), 6)
  {
  }

  lemma {:induction false} MixedBound(chk: Word, top: Word, i: nat)
    requires i <= 5 && Below(chk, 6)
    ensures Below(Mixed(chk, top, i), 6)
  {
    hide At, Xor, Gen, Below;
    if i > 0 {
      MixedBound(chk, top, i - 1);
      GenBound(i - 1);
      XorBound(Mixed(chk, top, i - 1), Gen(i - 1));
    }
  }

  /** A checksum has thirty bits. */
  lemma StepBound(a: Word)
    ensures Below(Step(a, 0), 6)
  {
    hide At, Xor, Rest, Top, Mixed, Below;
    RestBound(a);
    XorBound(Rest(a), 0);
    MixedBound(Xor(Rest(a), 0), Top(a), 5);
  }

  /** Part `i` of a checksum, five bits each, from the top. */
  function Chunk(p: Word, i: nat): Word
    requires i < 6
  {
    if i == 0 then (p >> 25) & 31 else if i == 1 then (p >> 20) & 31 else if i == 2 then (p >> 15) & 31
    else if i == 3 then (p >> 10) & 31 else if i == 4 then (p >> 5) & 31 else p & 31
  }

  function Chunks(p: Word): seq<Word>
  {
    [Chunk(p, 0), Chunk(p, 1), Chunk(p, 2), Chunk(p, 3), Chunk(p, 4), Chunk(p, 5)]
  }

  lemma ChunkSmall(p: Word, i: nat)
    requires i < 6
    ensures Small(Chunk(p, i), 5)
  {
  }

  lemma ChunksNarrow(p: Word)
    ensures Narrow(Chunks(p), 5)
  {
    hide Small, Chunk;
    forall i | 0 <= i < 6
      ensures Small(Chunk(p, i), 5)
    {
      ChunkSmall(p, i);
    }
  }

  lemma {:induction false} FoldAppend(chk: Word, xs: seq<Word>, ys: seq<Word>)
    ensures Fold(chk, xs + ys) == Fold(Fold(chk, xs), ys)
    decreases |xs|
  {
    hide Step;
    if xs == [] {
      assert [] + ys == ys;
    } else {
      assert (xs + ys)[1..] == xs[1..] + ys;
      FoldAppend(Step(chk, xs[0]), xs[1..], ys);
    }
  }

  const SIX: seq<Word> := [0, 0, 0, 0, 0, 0]

  /** Values pushed one after the other into an empty word. */
  function Pack(xs: seq<Word>): Word
  {
    if xs == [] then 0 else Push(Pack(xs[..|xs| - 1]), xs[|xs| - 1])
  }

  lemma PushBound(b: Word, x: Word, n: nat)
    requires 1 <= n < 6 && Below(b, n) && Small(x, 5)
    ensures Below(Push(b, x), n + 1)
  {
    if n == 1 {
    } else if n == 2 {
    } else if n == 3 {
    } else if n == 4 {
    } else {
    }
  }

  lemma PushFirst(x: Word)
    requires Small(x, 5)
    ensures Push(0, x) == x && Below(x, 1)
  {
  }

  lemma {:induction false} PackBound(xs: seq<Word>)
    requires Narrow(xs, 5) && 1 <= |xs| <= 6
    ensures Below(Pack(xs), |xs|)
  {
    hide Small, Below, Push;
    var n := |xs| - 1;
    if n == 0 {
      PushFirst(xs[0]);
    } else {
      PackBound(xs[..n]);
      PushBound(Pack(xs[..n]), xs[n], n);
    }
  }

  lemma BelowMore(b: Word, n: nat)
    requires 1 <= n <= 5 && Below(b, n)
    ensures Below(b, 5)
  {
    if n == 1 {
    } else if n == 2 {
    } else if n == 3 {
    } else if n == 4 {
    } else {
    }
  }

  /** Steps on at most six five-bit values: the steps on zeros, and the values packed together. */
  lemma {:induction false} FoldPacks(c: Word, xs: seq<Word>)
    requires Narrow(xs, 5) && |xs| <= 6
    ensures Fold(c, xs) == Xor(Fold(c, SIX[..|xs|]), Pack(xs))
    decreases |xs|
  {
    hide Small, Below, Push, Step, Xor;
    if xs == [] {
      XorAssoc(c, 0, 0);
    } else {
      var n := |xs| - 1;
      var front, zeros := xs[..n], SIX[..n];
      FoldPacks(c, front);
      assert xs == front + [xs[n]] && SIX[..n + 1] == zeros + [0];
      FoldAppend(c, front, [xs[n]]);
      FoldAppend(c, zeros, [0]);
      FoldOne(Fold(c, front), xs[n]);
      FoldOne(Fold(c, zeros), 0);
      if n == 0 {
        EmptyBound();
      } else {
        PackBound(front);
        BelowMore(Pack(front), n);
      }
      StepXor(Fold(c, zeros), Pack(front), xs[n]);
    }
  }

  lemma EmptyBound()
    ensures Below(0, 5)
  {
  }

  lemma FoldOne(c: Word, x: Word)
    ensures Fold(c, [x]) == Step(c, x)
  {
    hide Step;
    assert [x][1..] == [];
  }

  lemma PackChunks(p: Word)
    requires Below(p, 6)
    ensures Pack(Chunks(p)) == p
  {
    hide Push, Below, Chunk;
    var c := Chunks(p);
    assert c[..5][..4] == c[..4] && c[..4][..3] == c[..3] && c[..3][..2] == c[..2];
    assert c[..2][..1] == c[..1] && c[..1][..0] == [];
    assert Pack(c[..1]) == Push(0, Chunk(p, 0));
    assert Pack(c[..2]) == Push(Pack(c[..1]), Chunk(p, 1));
    assert Pack(c[..3]) == Push(Pack(c[..2]), Chunk(p, 2));
    assert Pack(c[..4]) == Push(Pack(c[..3]), Chunk(p, 3));
    assert Pack(c[..5]) == Push(Pack(c[..4]), Chunk(p, 4));
    PushChunks(p);
  }

  lemma PushChunks(p: Word)
    requires Below(p, 6)
    ensures var q := Push(Push(Push(0, Chunk(p, 0)), Chunk(p, 1)), Chunk(p, 2));
            Push(Push(Push(q, Chunk(p, 3)), Chunk(p, 4)), Chunk(p, 5)) == p
  {
  }

  /** Appending the parts of a checksum makes the whole fold to the constant the checksum was flipped by. */
  lemma SixSteps(c: Word)
    ensures Fold(c, Chunks(Xor(Fold(c, SIX), 1))) == 1
  {
    hide Step, Xor, Chunks, Below, Pack, Narrow;
    var z := Fold(c, SIX);
    SixBound(c);
    RestBound(c);
    XorBound(z, 1);
    var p := Xor(z, 1);
    ChunksNarrow(p);
    ChunksLength(p);
    FoldPacks(c, Chunks(p));
    assert SIX[..6] == SIX;
    PackChunks(p);
    Cancel(z);
  }

  lemma ChunksLength(p: Word)
    ensures |Chunks(p)| == 6
  {
  }

  lemma SixBound(c: Word)
    ensures Below(Fold(c, SIX), 6)
  {
    hide Step, Below;
    assert SIX == SIX[..5] + [0];
    FoldAppend(c, SIX[..5], [0]);
    FoldOne(Fold(c, SIX[..5]), 0);
    StepBound(Fold(c, SIX[..5]));
  }

  lemma Cancel(z: Word)
    ensures Xor(z, Xor(z, 1)) == 1
  {
  }

  // ----- a single wrong letter -----

  /** The generators selected by the five shifted-out bits. */
  function Feedback(top: Word): Word
  {
    (if top & 1 != 0 then 0x3b6a57b2 else 0) ^ (if top & 2 != 0 then 0x26508e6d else 0) ^
    (if top & 4 != 0 then 0x1ea119fa else 0) ^ (if top & 8 != 0 then 0x3d4233dd else 0) ^
    (if top & 16 != 0 then 0x2a1462b3 else 0)
  }

  lemma MixedFeedback(top: Word)
    ensures Mixed(0, top, 5) == Feedback(top)
  {
    var m0 := Mixed(0, top, 0);
    var m1, m2, m3, m4 := Mixed(0, top, 1), Mixed(0, top, 2), Mixed(0, top, 3), Mixed(0, top, 4);
    assert m1 == m0 ^ (if top & 1 != 0 then 0x3b6a57b2 else 0);
    assert m2 == m1 ^ (if top & 2 != 0 then 0x26508e6d else 0);
    assert m3 == m2 ^ (if top & 4 != 0 then 0x1ea119fa else 0);
    assert m4 == m3 ^ (if top & 8 != 0 then 0x3d4233dd else 0);
  }

  /** The low five bits of the generators tell apart what was shifted out. */
  lemma FeedbackLow(s: Word, t: Word)
    requires s <= 31 && t <= 31 && Feedback(s) & 31 == Feedback(t) & 31
    ensures s == t
  {
  }

  lemma LowOfStep(a: Word, u: Word, f: Word)
    ensures Xor(Xor(Rest(a), u), f) & 31 == (u ^ f) & 31
  {
  }

  lemma TopSmall(a: Word)
    requires Below(a, 6)
    ensures Top(a) <= 31
  {
  }

  lemma CancelSame(a: Word, b: Word, u: Word, f: Word)
    requires Below(a, 6) && Below(b, 6) && Top(a) == Top(b) && Xor(Xor(Rest(a), u), f) == Xor(Xor(Rest(b), u), f)
    ensures a == b
  {
  }

  lemma CancelValue(r: Word, u: Word, v: Word, f: Word)
    requires Xor(Xor(r, u), f) == Xor(Xor(r, v), f)
    ensures u == v
  {
  }

  lemma LowCancel(u: Word, f: Word, g: Word)
    requires (u ^ f) & 31 == (u ^ g) & 31
    ensures f & 31 == g & 31
  {
  }

  /** Nothing is forgotten: a step can be undone. */
  lemma NothingForgotten(a: Word, b: Word, u: Word, v: Word)
    requires Below(a, 6) && Below(b, 6)
    requires Xor(Xor(Rest(a), u), Feedback(Top(a))) == Xor(Xor(Rest(b), v), Feedback(Top(b)))
    ensures u == v <==> a == b
  {
    hide Xor, Rest, Top, Feedback, Below;
    if u == v {
      LowOfStep(a, u, Feedback(Top(a)));
      LowOfStep(b, u, Feedback(Top(b)));
      LowCancel(u, Feedback(Top(a)), Feedback(Top(b)));
      TopSmall(a);
      TopSmall(b);
      FeedbackLow(Top(a), Top(b));
      CancelSame(a, b, u, Feedback(Top(a)));
    }
    if a == b {
      CancelValue(Rest(a), u, v, Feedback(Top(a)));
    }
  }

  lemma StepInjective(a: Word, b: Word, u: Word, v: Word)
    requires Below(a, 6) && Below(b, 6) && Step(a, u) == Step(b, v)
    ensures u == v <==> a == b
  {
    hide At, Xor, Rest, Top, Mixed, Below, Feedback;
    MixedIsXor(Xor(Rest(a), u), Top(a), 5);
    MixedIsXor(Xor(Rest(b), v), Top(b), 5);
    MixedFeedback(Top(a));
    MixedFeedback(Top(b));
    NothingForgotten(a, b, u, v);
  }

  lemma StepBelow(a: Word, v: Word)
    requires Small(v, 5)
    ensures Below(Step(a, v), 6)
  {
    hide At, Xor, Rest, Top, Mixed, Below;
    RestBound(a);
    assert Below(v, 6) by { SmallBelow(v); }
    XorBound(Rest(a), v);
    MixedBound(Xor(Rest(a), v), Top(a), 5);
  }

  lemma SmallBelow(v: Word)
    requires Small(v, 5)
    ensures Below(v, 6)
  {
  }

  lemma {:induction false} FoldBelow(c: Word, xs: seq<Word>)
    requires Below(c, 6) && Narrow(xs, 5)
    ensures Below(Fold(c, xs), 6)
    decreases |xs|
  {
    hide Step, Below, Small;
    if xs != [] {
      StepBelow(c, xs[0]);
      FoldBelow(Step(c, xs[0]), xs[1..]);
    }
  }

  lemma {:induction false} FoldInjective(a: Word, b: Word, xs: seq<Word>)
    requires Below(a, 6) && Below(b, 6) && Narrow(xs, 5) && Fold(a, xs) == Fold(b, xs)
    ensures a == b
    decreases |xs|
  {
    hide Step, Below, Small;
    if xs != [] {
      StepBelow(a, xs[0]);
      StepBelow(b, xs[0]);
      FoldInjective(Step(a, xs[0]), Step(b, xs[0]), xs[1..]);
      StepInjective(a, b, xs[0], xs[0]);
    }
  }

  /** Changing one value anywhere, in data of any length, changes the checksum. */
  lemma OneErrorDetected(before: seq<Word>, x: Word, y: Word, after: seq<Word>)
    requires Narrow(before, 5) && Small(x, 5) && Small(y, 5) && Narrow(after, 5) && x != y
    ensures Fold(1, before + [x] + after) != Fold(1, before + [y] + after)
  {
    hide Step, Below, Small;
    var c := Fold(1, before);
    RestBound(0);
    FoldBelow(1, before);
    FoldAppend(1, before + [x], after);
    FoldAppend(1, before + [y], after);
    FoldAppend(1, before, [x]);
    FoldAppend(1, before, [y]);
    FoldOne(c, x);
    FoldOne(c, y);
    StepBelow(c, x);
    StepBelow(c, y);
    if Fold(Step(c, x), after) == Fold(Step(c, y), after) {
      FoldInjective(Step(c, x), Step(c, y), after);
      StepInjective(c, c, x, y);
    }
  }

  // ----- strings -----

  predicate Ascii(s: string) { forall i :: 0 <= i < |s| ==> s[i] < 128 as char }

  function LowerChar(c: char): char { if 'A' <= c <= 'Z' then c - 'A' + 'a' else c }
  function UpperChar(c: char): char { if 'a' <= c <= 'z' then c - 'a' + 'A' else c }

  function Lower(s: string): (r: string)
    ensures |r| == |s| && forall i :: 0 <= i < |s| ==> r[i] == LowerChar(s[i])
  {
    seq(|s|, i requires 0 <= i < |s| => LowerChar(s[i]))
  }

  function Upper(s: string): (r: string)
    ensures |r| == |s| && forall i :: 0 <= i < |s| ==> r[i] == UpperChar(s[i])
  {
    seq(|s|, i requires 0 <= i < |s| => UpperChar(s[i]))
  }

  /** The `charset` letter of a five-bit value. */
  function CharOf(v: Word): char
  {
    if v == 0 then 'q'
    else if v == 1 then 'p'
    else if v == 2 then 'z'
    else if v == 3 then 'r'
    else if v == 4 then 'y'
    else if v == 5 then '9'
    else if v == 6 then 'x'
    else if v == 7 then '8'
    else if v == 8 then 'g'
    else if v == 9 then 'f'
    else if v == 10 then '2'
    else if v == 11 then 't'
    else if v == 12 then 'v'
    else if v == 13 then 'd'
    else if v == 14 then 'w'
    else if v == 15 then '0'
    else if v == 16 then 's'
    else if v == 17 then '3'
    else if v == 18 then 'j'
    else if v == 19 then 'n'
    else if v == 20 then '5'
    else if v == 21 then '4'
    else if v == 22 then 'k'
    else if v == 23 then 'h'
    else if v == 24 then 'c'
    else if v == 25 then 'e'
    else if v == 26 then '6'
    else if v == 27 then 'm'
    else if v == 28 then 'u'
    else if v == 29 then 'a'
    else if v == 30 then '7'
    else 'l'
  }

  /** The `inverseCharset` table on ASCII: both cases of a letter give its value. */
  function Inverse(c: char): Option<Word> { Position(LowerChar(c)) }

  function Position(l: char): Option<Word>
  {
    if l == 'q' then Some(0)
    else if l == 'p' then Some(1)
    else if l == 'z' then Some(2)
    else if l == 'r' then Some(3)
    else if l == 'y' then Some(4)
    else if l == '9' then Some(5)
    else if l == 'x' then Some(6)
    else if l == '8' then Some(7)
    else if l == 'g' then Some(8)
    else if l == 'f' then Some(9)
    else if l == '2' then Some(10)
    else if l == 't' then Some(11)
    else if l == 'v' then Some(12)
    else if l == 'd' then Some(13)
    else if l == 'w' then Some(14)
    else if l == '0' then Some(15)
    else if l == 's' then Some(16)
    else if l == '3' then Some(17)
    else if l == 'j' then Some(18)
    else if l == 'n' then Some(19)
    else if l == '5' then Some(20)
    else if l == '4' then Some(21)
    else if l == 'k' then Some(22)
    else if l == 'h' then Some(23)
    else if l == 'c' then Some(24)
    else if l == 'e' then Some(25)
    else if l == '6' then Some(26)
    else if l == 'm' then Some(27)
    else if l == 'u' then Some(28)
    else if l == 'a' then Some(29)
    else if l == '7' then Some(30)
    else if l == 'l' then Some(31)
    else None
  }

  lemma PositionLow(v: Word)
    requires v < 16
    ensures Position(CharOf(v)) == Some(v)
  {
    if v < 4 {
    } else if v < 8 {
    } else if v < 12 {
    } else {
    }
  }

  lemma PositionHigh(v: Word)
    requires 16 <= v < 24
    ensures Position(CharOf(v)) == Some(v)
  {
    if v < 20 {
    } else {
    }
  }

  lemma PositionHigher(v: Word)
    requires 24 <= v < 28
    ensures Position(CharOf(v)) == Some(v)
  {
  }

  lemma PositionTop(v: Word)
    requires 28 <= v <= 31
    ensures Position(CharOf(v)) == Some(v)
  {
  }

  lemma PositionOf(v: Word)
    requires Small(v, 5)
    ensures Position(CharOf(v)) == Some(v)
  {
    hide Position, CharOf;
    if v < 16 {
      PositionLow(v);
    } else if v < 24 {
      PositionHigh(v);
    } else if v < 28 {
      PositionHigher(v);
    } else {
      PositionTop(v);
    }
  }

  lemma AlphabetInverse(v: Word)
    requires Small(v, 5)
    ensures Inverse(CharOf(v)) == Some(v)
  {
    hide CharOf, LowerChar, Position;
    AlphabetPlain(v);
    PositionOf(v);
  }

  lemma AlphabetPlain(v: Word)
    ensures CharOf(v) != '1' && LowerChar(CharOf(v)) == CharOf(v) && CharOf(v) < 128 as char
  {
  }

  /** The letters of squashed bytes; a byte with high bits set is an error. */
  function Letters(values: seq<Word>): Option<string>
  {
    if Narrow(values, 5) then Some(seq(|values|, i requires 0 <= i < |values| => CharOf(values[i]))) else None
  }

  /** The squashed bytes of a string; a letter outside the alphabet is an error. */
  function Values(s: string): Option<seq<Word>>
  {
    if s == [] then Some([])
    else
      var front, v := Values(s[..|s| - 1]), Inverse(s[|s| - 1]);
      if front.None? || v.None? then None else Some(front.value + [v.value])
  }

  method SquashedBytesToString(input: seq<Word>) returns (r: Option<string>)
    ensures r == Letters(input)
  {
    hide CharOf, Small;
    var s := "";
    for i := 0 to |input|
      invariant Narrow(input[..i], 5) && |s| == i && forall j :: 0 <= j < i ==> s[j] == CharOf(input[j])
    {
      NarrowNext(input, i, 5);
      if !Small(input[i], 5) {
        return None;
      }
      s := s + [CharOf(input[i])];
    }
    assert input[..|input|] == input && s == Letters(input).value;
    r := Some(s);
  }

  lemma {:induction false} ValuesFail(s: string, k: nat)
    requires k <= |s| && Values(s[..k]).None?
    ensures Values(s).None?
    decreases |s| - k
  {
    hide Inverse;
    if k == |s| {
      assert s[..k] == s;
    } else {
      assert s[..k + 1][..k] == s[..k];
      ValuesFail(s, k + 1);
    }
  }

  method StringToSquashedBytes(input: string) returns (r: Option<seq<Word>>)
    requires Ascii(input)
    ensures r == Values(input)
  {
    hide Inverse;
    var b := new Word[|input|];
    for i := 0 to |input|
      invariant Values(input[..i]) == Some(b[..i])
    {
      assert input[..i + 1][..i] == input[..i];
      var v := Inverse(input[i]);
      if v.None? {
        ValuesFail(input, i + 1);
        return None;
      }
      b[i] := v.value;
      assert b[..i + 1] == b[..i] + [v.value];
    }
    assert input[..|input|] == input && b[..|input|] == b[..];
    r := Some(b[..]);
  }

  lemma {:induction false} ValuesOfLetters(values: seq<Word>)
    requires Narrow(values, 5)
    ensures Letters(values).Some? && |Letters(values).value| == |values|
    ensures Values(Letters(values).value) == Some(values)
    decreases |values|
  {
    hide CharOf, Inverse, Small;
    if values != [] {
      var n := |values| - 1;
      ValuesOfLetters(values[..n]);
      AlphabetInverse(values[n]);
      assert Letters(values).value[..n] == Letters(values[..n]).value;
      assert values == values[..n] + [values[n]];
    }
  }

  lemma LettersPlain(values: seq<Word>)
    requires Narrow(values, 5)
    ensures forall i :: 0 <= i < |values| ==>
              var c := Letters(values).value[i]; c != '1' && LowerChar(c) == c && c < 128 as char
  {
    hide CharOf, Small, LowerChar;
    forall i | 0 <= i < |values|
      ensures var c := Letters(values).value[i]; c != '1' && LowerChar(c) == c && c < 128 as char
    {
      AlphabetPlain(values[i]);
    }
  }

  function CharWord(c: char): Word { (c as int % 256) as Word }

  /** The high bits of the prefix, a zero, and its low bits. */
  function Expanded(s: string): seq<Word>
  {
    HighBits(s) + [0] + LowBits(s)
  }

  function High(c: char): Word { CharWord(c) >> 5 }
  function Low(c: char): Word { CharWord(c) & 31 }

  function HighBits(s: string): (r: seq<Word>)
    ensures |r| == |s| && forall i :: 0 <= i < |s| ==> r[i] == High(s[i])
  {
    if s == "" then [] else [High(s[0])] + HighBits(s[1..])
  }

  function LowBits(s: string): (r: seq<Word>)
    ensures |r| == |s| && forall i :: 0 <= i < |s| ==> r[i] == Low(s[i])
  {
    if s == "" then [] else [Low(s[0])] + LowBits(s[1..])
  }

  method HRPExpand(input: string) returns (output: array<Word>)
    ensures fresh(output) && output[..] == Expanded(input)
  {
    hide High, Low;
    var n := |input|;
    output := new Word[2 * n + 1](_ => 0);
    for i := 0 to n
      invariant forall j :: 0 <= j < i ==> output[j] == High(input[j])
      invariant forall j :: i <= j < 2 * n + 1 ==> output[j] == 0
    {
      output[i] := High(input[i]);
    }
    for i := 0 to n
      invariant forall j :: 0 <= j < n ==> output[j] == High(input[j])
      invariant output[n] == 0
      invariant forall j :: 0 <= j < i ==> output[j + n + 1] == Low(input[j])
    {
      output[i + n + 1] := Low(input[i]);
    }
    forall j | 0 <= j < 2 * n + 1
      ensures output[j] == Expanded(input)[j]
    {
      if j > n {
        assert output[(j - n - 1) + n + 1] == Low(input[j - n - 1]);
      }
    }
  }

  /** The six parts of the checksum of prefix and data, flipped in its lowest bit. */
  function Checksum(hrp: string, data: seq<Word>): seq<Word>
  {
    Chunks(Xor(Fold(1, Expanded(hrp) + data + SIX), 1))
  }

  /** The parts are written over the six zeros the sum was taken with. */
  method CreateChecksum(hrp: string, data: seq<Word>) returns (r: seq<Word>)
    ensures r == Checksum(hrp, data)
  {
    hide Chunk, Expanded, Fold, Xor;
    var expanded := HRPExpand(hrp);
    var values := expanded[..] + data + SIX;
    var sum := PolyMod(values);
    var checksum := Xor(sum, 1);
    var n := |values| - 6;
    for i := 0 to 6
      invariant |values| == n + 6 && forall j :: 0 <= j < i ==> values[n + j] == Chunk(checksum, j)
    {
      values := values[n + i := Chunk(checksum, i)];
    }
    r := values[n..];
    assert r[0] == Chunk(checksum, 0) && r[1] == Chunk(checksum, 1) && r[2] == Chunk(checksum, 2);
    assert r[3] == Chunk(checksum, 3) && r[4] == Chunk(checksum, 4) && r[5] == Chunk(checksum, 5);
  }

  predicate VerifyChecksum(hrp: string, data: seq<Word>)
  {
    Fold(1, Expanded(hrp) + data) == 1
  }

  /** A created checksum verifies, for every prefix and every data. */
  lemma ChecksumVerifies(hrp: string, data: seq<Word>)
    ensures VerifyChecksum(hrp, data + Checksum(hrp, data))
    ensures Narrow(Checksum(hrp, data), 5) && |Checksum(hrp, data)| == 6
  {
    hide Fold, Expanded, Chunks, Xor, Narrow;
    var v := Expanded(hrp) + data;
    var c := Fold(1, v);
    var sum := Checksum(hrp, data);
    FoldAppend(1, v, SIX);
    SixSteps(c);
    ChunksNarrow(Xor(Fold(c, SIX), 1));
    ChunksLength(Xor(Fold(c, SIX), 1));
    FoldAppend(1, v, sum);
    assert Expanded(hrp) + (data + sum) == v + sum;
  }

  function EncodeSquashed(hrp: string, data: seq<Word>): string
  {
    var letters := Letters(data + Checksum(hrp, data));
    if letters.None? then "" else hrp + "1" + letters.value
  }

  /** The error of regrouping is dropped by the source: its output is then empty. */
  function Encode(hrp: string, data: seq<Word>): string
  {
    var five := Squash(data, 8);
    EncodeSquashed(hrp, if five.None? then [] else five.value)
  }

  datatype Decoded =
    | Ok(hrp: string, data: seq<Word>)
    | MixedCase
    | NoSeparator
    | BadCharacter
    | BadChecksum
    | BadPadding
    | Panic

  /** The position of the last '1', or -1. */
  function LastOne(s: string): (i: int)
    ensures -1 <= i < |s|
  {
    if s == "" then -1 else if s[|s| - 1] == '1' then |s| - 1 else LastOne(s[..|s| - 1])
  }

  /** `DecodeSquashed`. Data that verifies but is shorter than a checksum makes the slice panic. */
  function DecodeSquashed(address: string): Decoded
    requires Ascii(address)
  {
    var adr := Lower(address);
    if address != adr && address != Upper(address) then MixedCase
    else
      var splitLoc := LastOne(adr);
      if splitLoc == -1 then NoSeparator
      else
        var hrp, data := adr[..splitLoc], Values(adr[splitLoc + 1..]);
        if data.None? then BadCharacter
        else if !VerifyChecksum(hrp, data.value) then BadChecksum
        else if |data.value| < 6 then Panic
        else Ok(hrp, data.value[..|data.value| - 6])
  }

  function Decode(address: string): Decoded
    requires Ascii(address)
  {
    var d := DecodeSquashed(address);
    if !d.Ok? then d
    else
      var data := Squash(d.data, 5);
      if data.None? then BadPadding else Ok(d.hrp, data.value)
  }

  lemma {:induction false} LastOneAt(hrp: string, tail: string)
    requires forall i :: 0 <= i < |tail| ==> tail[i] != '1'
    ensures LastOne(hrp + "1" + tail) == |hrp|
    decreases |tail|
  {
    var s := hrp + "1" + tail;
    if tail != "" {
      assert s[..|s| - 1] == hrp + "1" + tail[..|tail| - 1];
      LastOneAt(hrp, tail[..|tail| - 1]);
    }
  }

  /** Whatever is decoded, its prefix is in lower case. */
  lemma DecodedLower(address: string)
    requires Ascii(address) && Decode(address).Ok?
    ensures Lower(Decode(address).hrp) == Decode(address).hrp
  {
    hide Values, VerifyChecksum, Squash, LastOne;
    var adr := Lower(address);
    var splitLoc := LastOne(adr);
    assert forall i :: 0 <= i < |adr| ==> LowerChar(adr[i]) == adr[i];
  }

  /** The squashed round trip, for a prefix without capitals. */
  lemma SquashedRoundTrip(hrp: string, five: seq<Word>)
    requires Ascii(hrp) && Lower(hrp) == hrp && Narrow(five, 5)
    ensures Ascii(EncodeSquashed(hrp, five)) && DecodeSquashed(EncodeSquashed(hrp, five)) == Ok(hrp, five)
  {
    hide VerifyChecksum, Checksum, Values, LowerChar, UpperChar, Small, LastOne, Letters;
    ChecksumVerifies(hrp, five);
    var sum := Checksum(hrp, five);
    var values := five + sum;
    assert Narrow(values, 5);
    ValuesOfLetters(values);
    LettersPlain(values);
    var tail := Letters(values).value;
    var adr := hrp + "1" + tail;
    LastOneAt(hrp, tail);
    assert LowerChar('1') == '1' by { OneIsLower(); }
    assert Lower(adr) == adr by {
      forall i | 0 <= i < |adr|
        ensures LowerChar(adr[i]) == adr[i]
      {
        if i < |hrp| {
          assert adr[i] == hrp[i] && Lower(hrp)[i] == hrp[i];
        }
      }
    }
    assert adr[..|hrp|] == hrp && adr[|hrp| + 1..] == tail;
    assert values[..|values| - 6] == five;
  }

  lemma OneIsLower()
    ensures LowerChar('1') == '1'
  {
  }

  /**
   Decoding an encoded address gives back prefix and bytes, for all bytes, if and only if the prefix
   has no capital letter.
   */
  lemma RoundTrip(hrp: string, data: seq<Word>)
    requires Ascii(hrp) && Narrow(data, 8)
    ensures Ascii(Encode(hrp, data))
    ensures Decode(Encode(hrp, data)) == Ok(hrp, data) <==> Lower(hrp) == hrp
  {
    hide Squash, Narrow, DecodeSquashed, EncodeSquashed, Lower;
    SquashRoundTrip(data);
    var five := Squash(data, 8).value;
    EncodedAscii(hrp, five);
    if Lower(hrp) == hrp {
      SquashedRoundTrip(hrp, five);
    } else if Decode(Encode(hrp, data)).Ok? {
      DecodedLower(Encode(hrp, data));
    }
  }

  lemma EncodedAscii(hrp: string, five: seq<Word>)
    requires Ascii(hrp) && Narrow(five, 5)
    ensures Ascii(EncodeSquashed(hrp, five))
  {
    hide Checksum, LowerChar, Small, Letters;
    ChecksumVerifies(hrp, five);
    var values := five + Checksum(hrp, five);
    ValuesOfLetters(values);
    LettersPlain(values);
  }
}
