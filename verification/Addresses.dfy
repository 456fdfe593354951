/**
 Which strings are addresses: exactly the encodings, written in one case. And the encoding itself, against
 the alphabet and an example of BIP 173.
 */
module Addresses {
  import opened Bits
  import opened Bech32

  // ----- the prefix -----

  lemma Recombine(x: Word)
    requires x < 256
    ensures (x >> 5) < 8 && (x & 31) < 32 && (x >> 5) * 32 + (x & 31) == x
  {
  }

  lemma CharWordSmall(c: char)
    requires c < 128 as char
    ensures CharWord(c) == (c as int) as Word && CharWord(c) < 256
  {
    assert c as int % 256 == c as int;
  }

  /** The expansion splits each character code into its part above and its part below 32. */
  lemma PrefixParts(hrp: string, i: nat)
    requires Ascii(hrp) && i < |hrp|
    ensures var n, e := |hrp|, Expanded(hrp);
            && |e| == 2 * n + 1 && e[n] == 0 && e[i] < 8 && e[i + n + 1] < 32
            && e[i] * 32 + e[i + n + 1] == (hrp[i] as int) as Word
  {
    hide CharWord;
    CharWordSmall(hrp[i]);
    Recombine(CharWord(hrp[i]));
    var n, e := |hrp|, Expanded(hrp);
    assert e[i] == High(hrp[i]) && e[i + n + 1] == LowBits(hrp)[i] == Low(hrp[i]);
  }

  // ----- the alphabet -----

  lemma EightLetters(a: Word, s: string)
    requires a <= 24 && |s| == 8
    requires CharOf(a) == s[0] && CharOf(a + 1) == s[1] && CharOf(a + 2) == s[2] && CharOf(a + 3) == s[3]
    requires CharOf(a + 4) == s[4] && CharOf(a + 5) == s[5] && CharOf(a + 6) == s[6] && CharOf(a + 7) == s[7]
    ensures Letters([a, a + 1, a + 2, a + 3, a + 4, a + 5, a + 6, a + 7]) == Some(s)
  {
    hide CharOf;
    var xs := [a, a + 1, a + 2, a + 3, a + 4, a + 5, a + 6, a + 7];
    assert Narrow(xs, 5);
    assert Letters(xs).value == s;
  }

  /** The letters of the values from 0 to 31. */
  lemma Alphabet()
    ensures Letters([0, 1, 2, 3, 4, 5, 6, 7]) == Some("qpzry9x8")
    ensures Letters([8, 9, 10, 11, 12, 13, 14, 15]) == Some("gf2tvdw0")
    ensures Letters([16, 17, 18, 19, 20, 21, 22, 23]) == Some("s3jn54kh")
    ensures Letters([24, 25, 26, 27, 28, 29, 30, 31]) == Some("ce6mua7l")
  {
    hide Letters;
    EightLetters(0, "qpzry9x8");
    EightLetters(8, "gf2tvdw0");
    EightLetters(16, "s3jn54kh");
    EightLetters(24, "ce6mua7l");
  }

  lemma LetterLow(l: char)
    ensures Position(l).Some? && Position(l).value < 16 ==> CharOf(Position(l).value) == l
  {
  }

  lemma LetterHigh(l: char)
    ensures Position(l).Some? && 16 <= Position(l).value ==> CharOf(Position(l).value) == l
  {
  }

  lemma PositionSmall(l: char)
    ensures Position(l).Some? ==> Small(Position(l).value, 5)
  {
  }

  /** A letter of the alphabet is the letter of its value. */
  lemma LetterOfPosition(l: char)
    ensures Position(l).Some? ==> Small(Position(l).value, 5) && CharOf(Position(l).value) == l
  {
    hide Position, CharOf;
    PositionSmall(l);
    LetterLow(l);
    LetterHigh(l);
  }

  lemma LowerTwice(s: string)
    ensures Lower(Lower(s)) == Lower(s)
  {
  }

  /** What was read as values is written as the same letters, in lower case. */
  lemma {:induction false} LettersOfValues(s: string)
    requires Values(s).Some?
    ensures |Values(s).value| == |s| && Narrow(Values(s).value, 5) && Letters(Values(s).value) == Some(Lower(s))
    decreases |s|
  {
    hide Position, CharOf, Small, LowerChar;
    if s == [] {
      assert Lower(s) == [] && Letters([]).value == [];
    } else {
      var n := |s| - 1;
      LettersOfValues(s[..n]);
      LetterOfPosition(LowerChar(s[n]));
      var v := Values(s).value;
      assert v[..n] == Values(s[..n]).value;
      forall i | 0 <= i < |s|
        ensures Small(v[i], 5) && CharOf(v[i]) == Lower(s)[i]
      {
        if i < n {
          assert v[i] == v[..n][i] && Letters(v[..n]).value[i] == Lower(s[..n])[i];
        }
      }
      assert Letters(v).value == Lower(s);
    }
  }

  // ----- the checksum is unique -----

  lemma ChunksOfPushes(a: Word, b: Word, c: Word, d: Word, e: Word, f: Word)
    requires Small(a, 5) && Small(b, 5) && Small(c, 5) && Small(d, 5) && Small(e, 5) && Small(f, 5)
    ensures var p := Push(Push(Push(Push(Push(Push(0, a), b), c), d), e), f);
            && Chunk(p, 0) == a && Chunk(p, 1) == b && Chunk(p, 2) == c
            && Chunk(p, 3) == d && Chunk(p, 4) == e && Chunk(p, 5) == f
  {
  }

  lemma ChunksOfPack(xs: seq<Word>)
    requires Narrow(xs, 5) && |xs| == 6
    ensures Chunks(Pack(xs)) == xs
  {
    hide Push, Chunk, Small;
    assert xs[..5][..4] == xs[..4] && xs[..4][..3] == xs[..3] && xs[..3][..2] == xs[..2];
    assert xs[..2][..1] == xs[..1] && xs[..1][..0] == [];
    assert Pack(xs[..1]) == Push(0, xs[0]);
    assert Pack(xs[..2]) == Push(Pack(xs[..1]), xs[1]);
    assert Pack(xs[..3]) == Push(Pack(xs[..2]), xs[2]);
    assert Pack(xs[..4]) == Push(Pack(xs[..3]), xs[3]);
    assert Pack(xs[..5]) == Push(Pack(xs[..4]), xs[4]);
    ChunksOfPushes(xs[0], xs[1], xs[2], xs[3], xs[4], xs[5]);
  }

  lemma XorBack(z: Word, p: Word)
    requires Xor(z, p) == 1
    ensures p == Xor(z, 1)
  {
  }

  /** Only one checksum verifies. */
  lemma ChecksumUnique(hrp: string, data: seq<Word>, sum: seq<Word>)
    requires Narrow(sum, 5) && |sum| == 6 && VerifyChecksum(hrp, data + sum)
    ensures sum == Checksum(hrp, data)
  {
    hide Fold, Expanded, Chunks, Xor, Narrow, Pack;
    var v := Expanded(hrp) + data;
    var c := Fold(1, v);
    assert Expanded(hrp) + (data + sum) == v + sum;
    FoldAppend(1, v, sum);
    FoldAppend(1, v, SIX);
    FoldPacks(c, sum);
    assert SIX[..6] == SIX;
    XorBack(Fold(c, SIX), Pack(sum));
    ChunksOfPack(sum);
  }

  // ----- regrouping back and there -----

  lemma ZerosBefore(x: Word, s: nat)
    requires s <= 8 && Pad(x, s, 8) == 0
    ensures BitsOf(x, s) == Zeros(s)
  {
    hide Pad, At;
    PadBits(x, s, 8);
    assert BitsOf(0, 8) == Zeros(8) by { ZeroBits(); }
    BitsLength(x, s);
    Parts(BitsOf(x, s), Zeros(8 - s), Zeros(s), Zeros(8 - s)) by {
      assert Zeros(s) + Zeros(8 - s) == Zeros(8);
    }
  }

  lemma NoBit(x: Word, i: nat)
    requires x == 0 && i < 12
    ensures !At(x, i)
  {
  }

  lemma ZeroBits()
    ensures BitsOf(0, 8) == Zeros(8)
  {
    hide At;
    var x: Word := 0;
    var bits := BitsOf(x, 8);
    forall j | 0 <= j < 8
      ensures !bits[j]
    {
      NoBit(x, 7 - j);
    }
    assert bits == Zeros(8);
  }

  /** What regroups to bytes is their bits and fewer than five zeros. */
  lemma UpStream(five: seq<Word>) returns (pad: nat)
    requires Squash(five, 5).Some?
    ensures pad < 5 && Narrow(five, 5) && Narrow(Squash(five, 5).value, 8)
    ensures Stream(five, 5) == Stream(Squash(five, 5).value, 8) + Zeros(pad)
  {
    hide At, Small, Narrow, Stream, BitsOf, Pad, FeedAll;
    var f := FeedAll(five, 5);
    FeedAllKeeps(five, 5);
    pad := f.bitstash;
    ZerosBefore(f.accumulator, pad);
  }

  /** Five-bit data that regroups to bytes comes back from them. */
  lemma SquashBack(five: seq<Word>)
    requires Squash(five, 5).Some?
    ensures Narrow(Squash(five, 5).value, 8) && Squash(Squash(five, 5).value, 8) == Some(five)
  {
    hide Squash, Narrow, Stream;
    var pad := UpStream(five);
    var data := Squash(five, 5).value;
    var pad' := SquashDown(data);
    var back := Squash(data, 8).value;
    StreamLength(five, 5);
    StreamLength(back, 5);
    assert 5 * |five| == |Stream(data, 8)| + pad && 5 * |back| == |Stream(data, 8)| + pad';
    assert pad == pad';
    StreamInjective(five, back, 5);
  }

  // ----- decoding -----

  predicate OneCase(s: string) { s == Lower(s) || s == Upper(s) }

  lemma {:induction false} LastOneIs(s: string)
    ensures LastOne(s) >= 0 ==> s[LastOne(s)] == '1'
  {
    if s != "" {
      LastOneIs(s[..|s| - 1]);
    }
  }

  lemma DecodedSquashed(address: string)
    requires Ascii(address) && DecodeSquashed(address).Ok?
    ensures var d := DecodeSquashed(address);
            && OneCase(address) && Lower(d.hrp) == d.hrp && EncodeSquashed(d.hrp, d.data) == Lower(address)
  {
    hide VerifyChecksum, Checksum, Values, Letters, LastOne, LowerChar, UpperChar;
    var adr := Lower(address);
    var split := LastOne(adr);
    LastOneIs(adr);
    LowerTwice(address);
    var hrp, tail := adr[..split], adr[split + 1..];
    var vs := Values(tail).value;
    assert forall i :: 0 <= i < |adr| ==> LowerChar(adr[i]) == adr[i] by {
      assert forall i :: 0 <= i < |adr| ==> Lower(adr)[i] == LowerChar(adr[i]);
    }
    assert Lower(hrp) == hrp && Lower(tail) == tail;
    LettersOfValues(tail);
    var n := |vs| - 6;
    assert vs == vs[..n] + vs[n..];
    ChecksumUnique(hrp, vs[..n], vs[n..]);
    assert adr == hrp + "1" + tail;
  }

  /** Whatever decodes is the encoding of what it decodes to, in one case. */
  lemma DecodedEncodes(address: string)
    requires Ascii(address) && Decode(address).Ok?
    ensures var d := Decode(address);
            && OneCase(address) && Narrow(d.data, 8) && Lower(d.hrp) == d.hrp && Encode(d.hrp, d.data) == Lower(address)
  {
    hide Squash, Narrow, DecodeSquashed, EncodeSquashed, Lower, OneCase;
    DecodedSquashed(address);
    SquashBack(DecodeSquashed(address).data);
  }

  /** The two cases of an address decode alike. */
  lemma DecodeLower(address: string)
    requires Ascii(address) && OneCase(address)
    ensures Ascii(Lower(address)) && Decode(address) == Decode(Lower(address))
  {
    hide VerifyChecksum, Values, LastOne, Squash;
    LowerTwice(address);
  }

  lemma EncodeBegins(hrp: string, data: seq<Word>)
    requires Narrow(data, 8)
    ensures hrp <= Encode(hrp, data)
  {
    hide Squash, Checksum, Letters, Small;
    SquashRoundTrip(data);
    var five := Squash(data, 8).value;
    ChecksumVerifies(hrp, five);
    ValuesOfLetters(five + Checksum(hrp, five));
    assert Encode(hrp, data)[..|hrp|] == hrp;
  }

  /**
   Decoding succeeds with a prefix and bytes if and only if the address is in one case, and in lower case is
   the encoding of those bytes under that prefix, which has no capitals.
   */
  lemma DecodesIff(address: string, hrp: string, data: seq<Word>)
    requires Ascii(address)
    ensures Decode(address) == Ok(hrp, data) <==>
            OneCase(address) && Narrow(data, 8) && Lower(hrp) == hrp && Encode(hrp, data) == Lower(address)
  {
    hide Decode, Encode, Lower, Upper, OneCase, Narrow;
    if Decode(address) == Ok(hrp, data) {
      DecodedEncodes(address);
    }
    if OneCase(address) && Narrow(data, 8) && Lower(hrp) == hrp && Encode(hrp, data) == Lower(address) {
      DecodeLower(address);
      EncodeBegins(hrp, data);
      AsciiPrefix(hrp, Lower(address));
      RoundTrip(hrp, data);
    }
  }

  lemma AsciiPrefix(hrp: string, s: string)
    requires hrp <= s && Ascii(s)
    ensures Ascii(hrp)
  {
  }

  /** Encoding five-bit data gives nothing if and only if a value has more than five bits. */
  lemma EncodeEmpty(hrp: string, data: seq<Word>)
    ensures EncodeSquashed(hrp, data) == "" <==> !Narrow(data, 5)
  {
    hide Checksum, Small, CharOf;
    ChecksumVerifies(hrp, data);
    var sum := Checksum(hrp, data);
    assert data == (data + sum)[..|data|];
    assert forall i :: 0 <= i < |data| ==> (data + sum)[i] == data[i];
  }

  // ----- an example -----

  /** The checksum of nothing under the prefix "a", step by step. */
  lemma ExampleSteps()
    ensures Step(1, 3) == 0x23 && Step(0x23, 0) == 0x460 && Step(0x460, 1) == 0x8c01 && Step(0x8c01, 0) == 0x118020
    ensures Step(0x118020, 0) == 0x2300400 && Step(0x2300400, 0) == 0x3d6ad7b2 && Step(0x3d6ad7b2, 0) == 0x2fd30b9
    ensures Step(0x2fd30b9, 0) == 0x24cc4092 && Step(0x24cc4092, 0) == 0x15ccfe9e
  {
    MixedFeedback(0);
    MixedFeedback(1);
    MixedFeedback(30);
    MixedFeedback(18);
  }

  lemma ExampleFold()
    ensures Fold(1, [3, 0, 1, 0, 0, 0, 0, 0, 0]) == 0x15ccfe9e
  {
    hide Step;
    ExampleSteps();
    assert [3, 0, 1, 0, 0, 0, 0, 0, 0] == [3] + [0] + [1] + [0] + [0] + [0] + [0] + [0] + [0];
  }

  lemma ExampleExpanded(hrp: string)
    requires hrp == "a"
    ensures Expanded(hrp) == [3, 0, 1]
  {
    hide Expanded;
    PrefixParts(hrp, 0);
    var e := Expanded(hrp);
    assert e[0] * 32 + e[2] == 97;
    ThreeOne(e[0], e[2]);
  }

  lemma ThreeOne(x: Word, y: Word)
    requires x < 8 && y < 32 && x * 32 + y == 97
    ensures x == 3 && y == 1
  {
  }

  lemma ExampleChecksum(hrp: string)
    requires hrp == "a"
    ensures Checksum(hrp, []) == [10, 28, 25, 31, 20, 31]
  {
    hide Fold, Expanded;
    ExampleExpanded(hrp);
    ExampleFold();
    assert Expanded(hrp) + [] + SIX == [3, 0, 1, 0, 0, 0, 0, 0, 0];
  }

  lemma ExampleLetters()
    ensures Letters([10, 28, 25, 31, 20, 31]) == Some("2uel5l")
  {
    assert Narrow([10, 28, 25, 31, 20, 31], 5);
    assert Letters([10, 28, 25, 31, 20, 31]).value == "2uel5l";
  }

  lemma ExampleEncode(hrp: string)
    requires hrp == "a"
    ensures Encode(hrp, []) == hrp + "1" + "2uel5l"
  {
    hide Checksum, Letters;
    ExampleChecksum(hrp);
    ExampleLetters();
    assert [] + Checksum(hrp, []) == Checksum(hrp, []);
    assert Squash([], 8) == Some([]);
  }

  /** BIP 173 lists "A12UEL5L" and "a12uel5l" as valid: the prefix "a" without data. */
  lemma Example(hrp: string, address: string, capitals: string)
    requires hrp == "a" && address == "a12uel5l" && capitals == "A12UEL5L"
    ensures Ascii(address) && Ascii(capitals)
    ensures Encode(hrp, []) == address && Decode(address) == Ok(hrp, []) && Decode(capitals) == Ok(hrp, [])
  {
    hide Encode, Decode;
    ExampleEncode(hrp);
    assert hrp + "1" + "2uel5l" == address;
    assert Lower(hrp) == hrp && Lower(address) == address && Lower(capitals) == address && Upper(capitals) == capitals;
    DecodesIff(address, hrp, []);
    DecodesIff(capitals, hrp, []);
  }

  /** One byte of ones is a digit of ones and one that begins with three. */
  lemma ExampleSquash(input: seq<Word>)
    requires input == [255]
    ensures Squash(input, 8) == Some([31, 28])
  {
    hide Drain, FeedAll;
    FeedNone(8);
    FeedNext(input, 0, 8);
    assert input[..0] == [] && input[..1] == input;
    var full := Regrouper(255, 8, []);
    assert Feed(Regrouper(0, 0, []), 255, 8) == Drain(full, 5);
    assert Digit(255, 3, 5) == 31 && Pad(255, 3, 5) == 28;
    DrainNext(full, 5);
    assert full.output + [Digit(255, 3, 5)] == [31];
    DrainDone(Regrouper(255, 3, [31]), 5);
    var g := Regrouper(255, 3, [31]);
    assert FeedAll(input, 8) == g && Narrow(input, 8);
    assert Finish(g, 8) == Some(g.output + [Pad(255, 3, 5)]);
    assert g.output + [28] == [31, 28];
  }
}
