/** What goes into MD5 besides the message, as sections 3.1 to 3.3 of RFC 1321 put it: the padding as
    bits, the length as a number, the words of the start as bytes. */
module Md5Padding {
  import opened Md5Stream

  lemma StartWords()
    ensures WordBytes(START[0]) == [0x01, 0x23, 0x45, 0x67] && WordBytes(START[1]) == [0x89, 0xab, 0xcd, 0xef]
    ensures WordBytes(START[2]) == [0xfe, 0xdc, 0xba, 0x98] && WordBytes(START[3]) == [0x76, 0x54, 0x32, 0x10]
  {}

  /** Section 3.3 gives the words as bytes, low-order bytes first. */
  lemma StartBytes()
    ensures Encoded(START) == [0x01, 0x23, 0x45, 0x67, 0x89, 0xab, 0xcd, 0xef,
                               0xfe, 0xdc, 0xba, 0x98, 0x76, 0x54, 0x32, 0x10]
  {
    EncodedFour(START[0], START[1], START[2], START[3]);
    StartWords();
  }

  lemma EncodedFour(a: int, b: int, c: int, d: int)
    ensures Encoded([a, b, c, d]) == WordBytes(a) + WordBytes(b) + WordBytes(c) + WordBytes(d)
  {
    assert [a, b, c, d][..3] == [a, b, c] && [a, b, c][..2] == [a, b] && [a, b][..1] == [a] && [a][..0] == [];
    assert Encoded([a]) == WordBytes(a);
    assert Encoded([a, b]) == WordBytes(a) + WordBytes(b);
    assert Encoded([a, b, c]) == WordBytes(a) + WordBytes(b) + WordBytes(c);
  }

  /** The bits of a byte, the most significant first. */
  function ByteBits(b: int): (r: seq<bool>)
    ensures |r| == 8
  {
    [b / 128 % 2 == 1, b / 64 % 2 == 1, b / 32 % 2 == 1, b / 16 % 2 == 1,
     b / 8 % 2 == 1, b / 4 % 2 == 1, b / 2 % 2 == 1, b % 2 == 1]
  }

  function Bits(m: seq<int>): (r: seq<bool>)
    ensures |r| == 8 * |m|
  {
    if m == [] then [] else Bits(m[..|m| - 1]) + ByteBits(m[|m| - 1])
  }

  lemma {:induction false} OneThenZeros(m: seq<int>)
    requires m != [] && m[0] == 0x80 && forall i | 1 <= i < |m| :: m[i] == 0
    ensures Bits(m)[0] && forall i | 1 <= i < 8 * |m| :: !Bits(m)[i]
  {
    if |m| == 1 {
      assert m[..0] == [];
    } else {
      OneThenZeros(m[..|m| - 1]);
      assert forall i | 0 <= i < 8 :: !ByteBits(0)[i];
    }
  }

  /** Section 3.1: a single one bit and then the fewest zero bits are appended, so that the length in bits
      becomes congruent to 448, modulo 512. */
  lemma PaddingBits(m: seq<int>)
    ensures var bits := Bits(Padding(|m|));
      && 1 <= |bits| <= 512 && (|Bits(m)| + |bits|) % 512 == 448
      && bits[0] && forall i | 1 <= i < |bits| :: !bits[i]
  {
    OneThenZeros(Padding(|m|));
    EightBytes(|m| + |Padding(|m|)|);
  }

  lemma EightBytes(n: nat)
    requires n % BLOCK == BLOCK - 8
    ensures 8 * n % 512 == 448
  {
    assert n == n / BLOCK * BLOCK + 56;
    assert 8 * n == n / BLOCK * 512 + 448;
  }

  /** Section 3.2: the length in bits, modulo 2^64, least significant byte first. */
  lemma LengthRead(m: seq<int>)
    ensures var b := Length(|m|);
      DecodedWord(b[..4]) + TWO32 * DecodedWord(b[4..]) == |Bits(m)| % TWO64
  {
    var bits := 8 * |m|;
    LengthBytes(|m|);
    TwoWords(bits);
    DecodeEncode(bits % TWO32);
    DecodeEncode(bits % TWO64 / TWO32);
  }

  lemma TwoWords(bits: nat)
    ensures 0 <= bits % TWO64 / TWO32 < TWO32 && bits % TWO64 == bits % TWO32 + TWO32 * (bits % TWO64 / TWO32)
  {
    var low := bits % TWO64;
    assert bits == bits / TWO64 * TWO32 * TWO32 + low;
    assert low == low / TWO32 * TWO32 + low % TWO32;
    HighWord(bits / TWO64 * TWO32 + low / TWO32, low % TWO32);
  }
}
