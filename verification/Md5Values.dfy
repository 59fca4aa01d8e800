/** What the functions and the constants of MD5 are worth: the four round functions and the rotation bit
    by bit, the constants of RFC 1321 written out, and two digests of its appendix A.5. */
module Md5Values {
  import opened Md5

  /** Bit k of w. */
  predicate On(w: bv32, k: bv5) { (w >> k) & 1 == 1 }

  lemma FBits(x: bv32, y: bv32, z: bv32, k: bv5)
    ensures On(x, k) ==> On(F(x, y, z), k) == On(y, k)
    ensures !On(x, k) ==> On(F(x, y, z), k) == On(z, k)
  {
  }

  lemma GBits(x: bv32, y: bv32, z: bv32, k: bv5)
    ensures On(z, k) ==> On(G(x, y, z), k) == On(x, k)
    ensures !On(z, k) ==> On(G(x, y, z), k) == On(y, k)
  {
  }

  lemma HBits(x: bv32, y: bv32, z: bv32, k: bv5)
    ensures On(x, k) == On(y, k) ==> On(H(x, y, z), k) == On(z, k)
    ensures On(x, k) != On(y, k) ==> On(H(x, y, z), k) == !On(z, k)
  {
    hide *;
    if On(x, k) == On(y, k) { HSame(x, y, z, k); } else { HOther(x, y, z, k); }
  }

  lemma HSame(x: bv32, y: bv32, z: bv32, k: bv5)
    requires On(x, k) == On(y, k)
    ensures On(H(x, y, z), k) == On(z, k)
  {
  }

  lemma HOther(x: bv32, y: bv32, z: bv32, k: bv5)
    requires On(x, k) != On(y, k)
    ensures On(H(x, y, z), k) != On(z, k)
  {
  }

  lemma IBits(x: bv32, y: bv32, z: bv32, k: bv5)
    ensures On(y, k) ==> On(I(x, y, z), k) == (!On(x, k) && On(z, k))
    ensures !On(y, k) ==> On(I(x, y, z), k) == (On(x, k) || !On(z, k))
  {
  }

  // Rotating by n takes bit k to bit k + n (modulo 32): for the amounts of each round.


  lemma RotateBits1(x: bv32, k: bv5)
    ensures On(RotateLeft(x, 7), k + 7) == On(x, k)
    ensures On(RotateLeft(x, 12), k + 12) == On(x, k)
    ensures On(RotateLeft(x, 17), k + 17) == On(x, k)
    ensures On(RotateLeft(x, 22), k + 22) == On(x, k)
  {
    hide *;
    Rotate7(x, k);
    Rotate12(x, k);
    Rotate17(x, k);
    Rotate22(x, k);
  }

  lemma RotateBits2(x: bv32, k: bv5)
    ensures On(RotateLeft(x, 5), k + 5) == On(x, k)
    ensures On(RotateLeft(x, 9), k + 9) == On(x, k)
    ensures On(RotateLeft(x, 14), k + 14) == On(x, k)
    ensures On(RotateLeft(x, 20), k + 20) == On(x, k)
  {
    hide *;
    Rotate5(x, k);
    Rotate9(x, k);
    Rotate14(x, k);
    Rotate20(x, k);
  }

  lemma RotateBits3(x: bv32, k: bv5)
    ensures On(RotateLeft(x, 4), k + 4) == On(x, k)
    ensures On(RotateLeft(x, 11), k + 11) == On(x, k)
    ensures On(RotateLeft(x, 16), k + 16) == On(x, k)
    ensures On(RotateLeft(x, 23), k + 23) == On(x, k)
  {
    hide *;
    Rotate4(x, k);
    Rotate11(x, k);
    Rotate16(x, k);
    Rotate23(x, k);
  }

  lemma RotateBits4(x: bv32, k: bv5)
    ensures On(RotateLeft(x, 6), k + 6) == On(x, k)
    ensures On(RotateLeft(x, 10), k + 10) == On(x, k)
    ensures On(RotateLeft(x, 15), k + 15) == On(x, k)
    ensures On(RotateLeft(x, 21), k + 21) == On(x, k)
  {
    hide *;
    Rotate6(x, k);
    Rotate10(x, k);
    Rotate15(x, k);
    Rotate21(x, k);
  }

  lemma Rotate4(x: bv32, k: bv5)
    ensures On(RotateLeft(x, 4), k + 4) == On(x, k)
  {
  }

  lemma Rotate5(x: bv32, k: bv5)
    ensures On(RotateLeft(x, 5), k + 5) == On(x, k)
  {
  }

  lemma Rotate6(x: bv32, k: bv5)
    ensures On(RotateLeft(x, 6), k + 6) == On(x, k)
  {
  }

  lemma Rotate7(x: bv32, k: bv5)
    ensures On(RotateLeft(x, 7), k + 7) == On(x, k)
  {
  }

  lemma Rotate9(x: bv32, k: bv5)
    ensures On(RotateLeft(x, 9), k + 9) == On(x, k)
  {
  }

  lemma Rotate10(x: bv32, k: bv5)
    ensures On(RotateLeft(x, 10), k + 10) == On(x, k)
  {
  }

  lemma Rotate11(x: bv32, k: bv5)
    ensures On(RotateLeft(x, 11), k + 11) == On(x, k)
  {
  }

  lemma Rotate12(x: bv32, k: bv5)
    ensures On(RotateLeft(x, 12), k + 12) == On(x, k)
  {
  }

  lemma Rotate14(x: bv32, k: bv5)
    ensures On(RotateLeft(x, 14), k + 14) == On(x, k)
  {
  }

  lemma Rotate15(x: bv32, k: bv5)
    ensures On(RotateLeft(x, 15), k + 15) == On(x, k)
  {
  }

  lemma Rotate16(x: bv32, k: bv5)
    ensures On(RotateLeft(x, 16), k + 16) == On(x, k)
  {
  }

  lemma Rotate17(x: bv32, k: bv5)
    ensures On(RotateLeft(x, 17), k + 17) == On(x, k)
  {
  }

  lemma Rotate20(x: bv32, k: bv5)
    ensures On(RotateLeft(x, 20), k + 20) == On(x, k)
  {
  }

  lemma Rotate21(x: bv32, k: bv5)
    ensures On(RotateLeft(x, 21), k + 21) == On(x, k)
  {
  }

  lemma Rotate22(x: bv32, k: bv5)
    ensures On(RotateLeft(x, 22), k + 22) == On(x, k)
  {
  }

  lemma Rotate23(x: bv32, k: bv5)
    ensures On(RotateLeft(x, 23), k + 23) == On(x, k)
  {
  }

  // ----- the constants -----

  lemma Constants1()
    ensures S11 == 7 && S12 == 12 && S13 == 17 && S14 == 22
    ensures Index(0) == 0 && Index(1) == 1 && Index(2) == 2 && Index(3) == 3
    ensures Index(4) == 4 && Index(5) == 5 && Index(6) == 6 && Index(7) == 7
    ensures Index(8) == 8 && Index(9) == 9 && Index(10) == 10 && Index(11) == 11
    ensures Index(12) == 12 && Index(13) == 13 && Index(14) == 14 && Index(15) == 15
    ensures Sine(0) == 0xd76aa478 && Sine(1) == 0xe8c7b756 && Sine(2) == 0x242070db && Sine(3) == 0xc1bdceee
    ensures Sine(4) == 0xf57c0faf && Sine(5) == 0x4787c62a && Sine(6) == 0xa8304613 && Sine(7) == 0xfd469501
    ensures Sine(8) == 0x698098d8 && Sine(9) == 0x8b44f7af && Sine(10) == 0xffff5bb1 && Sine(11) == 0x895cd7be
    ensures Sine(12) == 0x6b901122 && Sine(13) == 0xfd987193 && Sine(14) == 0xa679438e && Sine(15) == 0x49b40821
  {
  }

  lemma Constants2()
    ensures S21 == 5 && S22 == 9 && S23 == 14 && S24 == 20
    ensures Index(16) == 1 && Index(17) == 6 && Index(18) == 11 && Index(19) == 0
    ensures Index(20) == 5 && Index(21) == 10 && Index(22) == 15 && Index(23) == 4
    ensures Index(24) == 9 && Index(25) == 14 && Index(26) == 3 && Index(27) == 8
    ensures Index(28) == 13 && Index(29) == 2 && Index(30) == 7 && Index(31) == 12
    ensures Sine(16) == 0xf61e2562 && Sine(17) == 0xc040b340 && Sine(18) == 0x265e5a51 && Sine(19) == 0xe9b6c7aa
    ensures Sine(20) == 0xd62f105d && Sine(21) == 0x2441453 && Sine(22) == 0xd8a1e681 && Sine(23) == 0xe7d3fbc8
    ensures Sine(24) == 0x21e1cde6 && Sine(25) == 0xc33707d6 && Sine(26) == 0xf4d50d87 && Sine(27) == 0x455a14ed
    ensures Sine(28) == 0xa9e3e905 && Sine(29) == 0xfcefa3f8 && Sine(30) == 0x676f02d9 && Sine(31) == 0x8d2a4c8a
  {
  }

  lemma Constants3()
    ensures S31 == 4 && S32 == 11 && S33 == 16 && S34 == 23
    ensures Index(32) == 5 && Index(33) == 8 && Index(34) == 11 && Index(35) == 14
    ensures Index(36) == 1 && Index(37) == 4 && Index(38) == 7 && Index(39) == 10
    ensures Index(40) == 13 && Index(41) == 0 && Index(42) == 3 && Index(43) == 6
    ensures Index(44) == 9 && Index(45) == 12 && Index(46) == 15 && Index(47) == 2
    ensures Sine(32) == 0xfffa3942 && Sine(33) == 0x8771f681 && Sine(34) == 0x6d9d6122 && Sine(35) == 0xfde5380c
    ensures Sine(36) == 0xa4beea44 && Sine(37) == 0x4bdecfa9 && Sine(38) == 0xf6bb4b60 && Sine(39) == 0xbebfbc70
    ensures Sine(40) == 0x289b7ec6 && Sine(41) == 0xeaa127fa && Sine(42) == 0xd4ef3085 && Sine(43) == 0x4881d05
    ensures Sine(44) == 0xd9d4d039 && Sine(45) == 0xe6db99e5 && Sine(46) == 0x1fa27cf8 && Sine(47) == 0xc4ac5665
  {
  }

  lemma Constants4()
    ensures S41 == 6 && S42 == 10 && S43 == 15 && S44 == 21
    ensures Index(48) == 0 && Index(49) == 7 && Index(50) == 14 && Index(51) == 5
    ensures Index(52) == 12 && Index(53) == 3 && Index(54) == 10 && Index(55) == 1
    ensures Index(56) == 8 && Index(57) == 15 && Index(58) == 6 && Index(59) == 13
    ensures Index(60) == 4 && Index(61) == 11 && Index(62) == 2 && Index(63) == 9
    ensures Sine(48) == 0xf4292244 && Sine(49) == 0x432aff97 && Sine(50) == 0xab9423a7 && Sine(51) == 0xfc93a039
    ensures Sine(52) == 0x655b59c3 && Sine(53) == 0x8f0ccc92 && Sine(54) == 0xffeff47d && Sine(55) == 0x85845dd1
    ensures Sine(56) == 0x6fa87e4f && Sine(57) == 0xfe2ce6e0 && Sine(58) == 0xa3014314 && Sine(59) == 0x4e0811a1
    ensures Sine(60) == 0xf7537e82 && Sine(61) == 0xbd3af235 && Sine(62) == 0x2ad7d2bb && Sine(63) == 0xeb86d391
  {
  }

  // ----- the messages of the RFC -----

  lemma {:induction false} DecodedAt(s: seq<bv8>, i: nat)
    requires |s| % 4 == 0 && i < |s| / 4
    ensures Decoded(s)[i] == WordOf(s[4 * i], s[4 * i + 1], s[4 * i + 2], s[4 * i + 3])
    decreases |s|
  {
    hide WordOf;
    if i > 0 { DecodedAt(s[4..], i - 1); }
  }

  /** A message of less than 56 bytes fills one block. */
  lemma OneBlockAt(m: seq<bv8>)
    requires |m| < 56
    ensures |Padded(m)| == 64
    ensures forall k :: 0 <= k < |m| ==> Padded(m)[k] == m[k]
    ensures Padded(m)[|m|] == 0x80 && forall k :: |m| < k < 56 ==> Padded(m)[k] == 0
    ensures forall k :: 0 <= k < 8 ==> Padded(m)[56 + k] == LengthBytes(|m|)[k]
  {
    hide LengthBytes;
    PadTo(|m|);
  }

  lemma OneBlockDigest(m: seq<bv8>, q: Quad)
    requires |m| < 56 && |Padded(m)| == 64 && Block(INITIAL, Padded(m)) == q
    ensures Digest(m) == Bytes(q.a) + Bytes(q.b) + Bytes(q.c) + Bytes(q.d)
  {
    hide Block, Padded, Bytes;
    var p := Padded(m);
    assert p[..64] == p && p[64..] == [];
    assert Blocks(INITIAL, p) == q;
    EncodedFour(q.a, q.b, q.c, q.d);
  }

  lemma EncodedFour(a: bv32, b: bv32, c: bv32, d: bv32)
    ensures Encoded([a, b, c, d]) == Bytes(a) + Bytes(b) + Bytes(c) + Bytes(d)
  {
    hide Bytes;
    EncodedAppend([a, b, c], d);
    EncodedAppend([a, b], c);
    EncodedAppend([a], b);
    EncodedAppend([], a);
    assert [] + [a] == [a] && [a] + [b] == [a, b] && [a, b] + [c] == [a, b, c] && [a, b, c] + [d] == [a, b, c, d];
  }

  lemma Length0()
    ensures LengthBytes(0) == [0, 0, 0, 0, 0, 0, 0, 0]
  {
    hide Encoded, WordBits;
    Word0();
    EncodedTwo(0, 0);
    Bytes0();
  }

  lemma Length3()
    ensures LengthBytes(3) == [24, 0, 0, 0, 0, 0, 0, 0]
  {
    hide Encoded, WordBits;
    Word0();
    EncodedTwo(24, 0);
    Bytes0();
  }

  lemma Byte0()
    ensures ByteBits(0) == 0
  {
  }

  lemma Byte24()
    ensures ByteBits(24) == 24
  {
    hide FromBits;
    EightBits();
  }

  lemma EightBits()
    ensures FromBits(false, false, false, true, true, false, false, false) == 24
  {
  }

  lemma Word0()
    ensures WordBits(0) == 0 && WordBits(24) == 24
  {
    hide ByteBits;
    Byte0();
    Byte24();
  }

  lemma Bytes0()
    ensures Bytes(0) == [0, 0, 0, 0] && Bytes(24) == [24, 0, 0, 0]
  {
  }

  lemma EncodedTwo(a: bv32, b: bv32)
    ensures Encoded([a, b]) == Bytes(a) + Bytes(b)
  {
    hide Bytes;
    EncodedAppend([a], b);
    EncodedAppend([], a);
    assert [] + [a] == [a] && [a] + [b] == [a, b];
  }

  const EMPTY: seq<bv32> := [0x80, 0, 0, 0, 0, 0, 0, 0,
    0, 0, 0, 0, 0, 0, 0, 0]

  lemma EmptyWords()
    ensures |EMPTY| == 16
    ensures EMPTY[0] == 0x80 && EMPTY[1] == 0 && EMPTY[2] == 0 && EMPTY[3] == 0
    ensures EMPTY[4] == 0 && EMPTY[5] == 0 && EMPTY[6] == 0 && EMPTY[7] == 0
    ensures EMPTY[8] == 0 && EMPTY[9] == 0 && EMPTY[10] == 0 && EMPTY[11] == 0
    ensures EMPTY[12] == 0 && EMPTY[13] == 0 && EMPTY[14] == 0 && EMPTY[15] == 0
  {
  }

  lemma {:induction false} EmptySteps()
    ensures |EMPTY| == 16
    ensures Steps(Quad(0x67452301, 0xefcdab89, 0x98badcfe, 0x10325476), EMPTY, 0)
      == Quad(0x7246fad3, 0x14e45506, 0xff4ea3eb, 0x6e10a476)
  {
    hide Steps, Index, Sine, EMPTY;
    EmptyWords();
    Constants1();
    FourFF(Quad(0x67452301, 0xefcdab89, 0x98badcfe, 0x10325476), EMPTY, 0,
      Quad(0xa5202774, 0x1b163203, 0xe7f06b23, 0xf59592dd));
    FourFF(Quad(0xa5202774, 0x1b163203, 0xe7f06b23, 0xf59592dd), EMPTY, 4,
      Quad(0x32033344, 0x9bc13ce9, 0xf5b158db, 0x2f35d494));
    FourFF(Quad(0x32033344, 0x9bc13ce9, 0xf5b158db, 0x2f35d494), EMPTY, 8,
      Quad(0x3893b991, 0x70768a29, 0xe1ef0576, 0xfce4a312));
    FourFF(Quad(0x3893b991, 0x70768a29, 0xe1ef0576, 0xfce4a312), EMPTY, 12,
      Quad(0xf56c7cf1, 0xd6819c6a, 0x5aa53f75, 0x374943a7));
    Constants2();
    FourGG(Quad(0xf56c7cf1, 0xd6819c6a, 0x5aa53f75, 0x374943a7), EMPTY, 16,
      Quad(0x1c7d7513, 0xbd782e17, 0xc095f13a, 0x7bd57a3a));
    FourGG(Quad(0x1c7d7513, 0xbd782e17, 0xc095f13a, 0x7bd57a3a), EMPTY, 20,
      Quad(0x3d1e3e6c, 0xe422531a, 0xeb41643e, 0x68b7b3e3));
    FourGG(Quad(0x3d1e3e6c, 0xe422531a, 0xeb41643e, 0x68b7b3e3), EMPTY, 24,
      Quad(0x306ec122, 0xa0572807, 0xa3c663da, 0xd28c77c2));
    FourGG(Quad(0x306ec122, 0xa0572807, 0xa3c663da, 0xd28c77c2), EMPTY, 28,
      Quad(0x13707036, 0xa2205f1f, 0x1c31c384, 0xae7813db));
    Constants3();
    FourHH(Quad(0x13707036, 0xa2205f1f, 0x1c31c384, 0xae7813db), EMPTY, 32,
      Quad(0xdf63eaa1, 0x004b6669, 0x12f3e755, 0xc3689f5b));
    FourHH(Quad(0xdf63eaa1, 0x004b6669, 0x12f3e755, 0xc3689f5b), EMPTY, 36,
      Quad(0x5f7a9b2e, 0xc5dc8c15, 0x91ca4cb7, 0xabc34e16));
    FourHH(Quad(0x5f7a9b2e, 0xc5dc8c15, 0x91ca4cb7, 0xabc34e16), EMPTY, 40,
      Quad(0x4497169d, 0x0fe32453, 0xfd95f243, 0x76fd93d4));
    FourHH(Quad(0x4497169d, 0x0fe32453, 0xfd95f243, 0x76fd93d4), EMPTY, 44,
      Quad(0x3f55edfd, 0xca7d2dbd, 0x68d84ea2, 0x22a31f54));
    Constants4();
    FourII(Quad(0x3f55edfd, 0xca7d2dbd, 0x68d84ea2, 0x22a31f54), EMPTY, 48,
      Quad(0x93aa2577, 0x561e0689, 0xcd85b8cb, 0x1688dc85));
    FourII(Quad(0x93aa2577, 0x561e0689, 0xcd85b8cb, 0x1688dc85), EMPTY, 52,
      Quad(0x5625a114, 0x1e77fa61, 0x392ad0d0, 0x3450f42b));
    FourII(Quad(0x5625a114, 0x1e77fa61, 0x392ad0d0, 0x3450f42b), EMPTY, 56,
      Quad(0x474a9c8c, 0x30130182, 0x36594b14, 0xdfce00bc));
    FourII(Quad(0x474a9c8c, 0x30130182, 0x36594b14, 0xdfce00bc), EMPTY, 60,
      Quad(0x7246fad3, 0x14e45506, 0xff4ea3eb, 0x6e10a476));
    StepsEnd(Quad(0x7246fad3, 0x14e45506, 0xff4ea3eb, 0x6e10a476), EMPTY);
  }

  lemma WordsOfEmpty(p: seq<bv8>)
    requires |p| == 64
    requires p[0] == 0x80
    requires forall k :: 0 < k < 64 ==> p[k] == 0
    ensures Decoded(p) == EMPTY
  {
    hide Decoded, EMPTY;
    EmptyWords();
    forall i | 0 <= i < 16 ensures Decoded(p)[i] == EMPTY[i] {
      DecodedAt(p, i);
    }
  }

  lemma EmptyBlock(m: seq<bv8>)
    requires m == []
    ensures |Padded(m)| == 64 && Block(INITIAL, Padded(m)) == Quad(0xd98c1dd4, 0x04b2008f, 0x980980e9, 0x7e42f8ec)
  {
    hide *;
    OneBlockAt(m);
    Length0();
    forall k | 0 < k < 64 ensures Padded(m)[k] == 0 {
      if k >= 56 {
        var j := k - 56;
        assert Padded(m)[56 + j] == LengthBytes(0)[j];
      }
    }
    WordsOfEmpty(Padded(m));
    EmptySteps();
    BlockIs(INITIAL, Padded(m));
    InitialIs();
    SumEmpty();
  }

  lemma SumEmpty()
    ensures Sum(Quad(0x67452301, 0xefcdab89, 0x98badcfe, 0x10325476),
                Quad(0x7246fad3, 0x14e45506, 0xff4ea3eb, 0x6e10a476))
      == Quad(0xd98c1dd4, 0x04b2008f, 0x980980e9, 0x7e42f8ec)
  {
  }

  lemma EmptyBytes()
    ensures Bytes(0xd98c1dd4) == [0xd4, 0x1d, 0x8c, 0xd9]
    ensures Bytes(0x4b2008f) == [0x8f, 0x00, 0xb2, 0x04]
    ensures Bytes(0x980980e9) == [0xe9, 0x80, 0x09, 0x98]
    ensures Bytes(0x7e42f8ec) == [0xec, 0xf8, 0x42, 0x7e]
  {
  }

  /** The digest of the empty message. */
  lemma EmptyDigest()
    ensures Digest([]) == [0xd4, 0x1d, 0x8c, 0xd9, 0x8f, 0x00, 0xb2, 0x04,
        0xe9, 0x80, 0x09, 0x98, 0xec, 0xf8, 0x42, 0x7e]
  {
    hide *;
    var m: seq<bv8> := [];
    EmptyBlock(m);
    EmptyBytes();
    OneBlockDigest(m, Quad(0xd98c1dd4, 0x04b2008f, 0x980980e9, 0x7e42f8ec));
  }

  const ABC: seq<bv32> := [0x80636261, 0, 0, 0, 0, 0, 0, 0,
    0, 0, 0, 0, 0, 0, 0x18, 0]

  lemma AbcWords()
    ensures |ABC| == 16
    ensures ABC[0] == 0x80636261 && ABC[1] == 0 && ABC[2] == 0 && ABC[3] == 0
    ensures ABC[4] == 0 && ABC[5] == 0 && ABC[6] == 0 && ABC[7] == 0
    ensures ABC[8] == 0 && ABC[9] == 0 && ABC[10] == 0 && ABC[11] == 0
    ensures ABC[12] == 0 && ABC[13] == 0 && ABC[14] == 0x18 && ABC[15] == 0
  {
  }

  lemma {:induction false} AbcSteps()
    ensures |ABC| == 16
    ensures Steps(Quad(0x67452301, 0xefcdab89, 0x98badcfe, 0x10325476), ABC, 0)
      == Quad(0x310ade8f, 0xc08226b3, 0xe484b9d8, 0x624d8cb2)
  {
    hide Steps, Index, Sine, ABC;
    AbcWords();
    Constants1();
    FourFF(Quad(0x67452301, 0xefcdab89, 0x98badcfe, 0x10325476), ABC, 0,
      Quad(0xd6d117b4, 0x7ad956f2, 0x2f6fbd72, 0x344a8432));
    FourFF(Quad(0xd6d117b4, 0x7ad956f2, 0x2f6fbd72, 0x344a8432), ABC, 4,
      Quad(0xc73741ef, 0x928d99f6, 0x207dc67b, 0x8bac3051));
    FourFF(Quad(0xc73741ef, 0x928d99f6, 0x207dc67b, 0x8bac3051), ABC, 8,
      Quad(0x854b3712, 0x5ed49596, 0x3020401c, 0x74e2f284));
    FourFF(Quad(0x854b3712, 0x5ed49596, 0x3020401c, 0x74e2f284), ABC, 12,
      Quad(0xdda9b9a6, 0x72aff2e0, 0xe396856b, 0xa1051895));
    Constants2();
    FourGG(Quad(0xdda9b9a6, 0x72aff2e0, 0xe396856b, 0xa1051895), ABC, 16,
      Quad(0x3e9e9126, 0xb5b204e4, 0xe25e1652, 0x4a1d804e));
    FourGG(Quad(0x3e9e9126, 0xb5b204e4, 0xe25e1652, 0x4a1d804e), ABC, 20,
      Quad(0x59a8ffda, 0x47092c07, 0xabfc7920, 0x6d002f1e));
    FourGG(Quad(0x59a8ffda, 0x47092c07, 0xabfc7920, 0x6d002f1e), ABC, 24,
      Quad(0xb7f268cf, 0x786acb8f, 0xfe1623b1, 0x09388eff));
    FourGG(Quad(0xb7f268cf, 0x786acb8f, 0xfe1623b1, 0x09388eff), ABC, 28,
      Quad(0x790a77fb, 0x726342d3, 0xa62884aa, 0x9f47e4f8));
    Constants3();
    FourHH(Quad(0x790a77fb, 0x726342d3, 0xa62884aa, 0x9f47e4f8), ABC, 32,
      Quad(0xb3707ebf, 0x3b0875c7, 0x8d212ff5, 0x60127b2e));
    FourHH(Quad(0xb3707ebf, 0x3b0875c7, 0x8d212ff5, 0x60127b2e), ABC, 36,
      Quad(0x21b117b9, 0x5a2f5ea5, 0x3575227e, 0x6e7429d5));
    FourHH(Quad(0x21b117b9, 0x5a2f5ea5, 0x3575227e, 0x6e7429d5), ABC, 40,
      Quad(0x11de1779, 0x4c6124f4, 0x31c465ca, 0xfadcaa38));
    FourHH(Quad(0x11de1779, 0x4c6124f4, 0x31c465ca, 0xfadcaa38), ABC, 44,
      Quad(0x7f2e507b, 0x7beb9700, 0x8fae6399, 0x99d9679d));
    Constants4();
    FourII(Quad(0x7f2e507b, 0x7beb9700, 0x8fae6399, 0x99d9679d), ABC, 48,
      Quad(0x7b201df8, 0x8bf025c4, 0xb298cefd, 0xf4e8e96e));
    FourII(Quad(0x7b201df8, 0x8bf025c4, 0xb298cefd, 0xf4e8e96e), ABC, 52,
      Quad(0x06cc5e8a, 0x3bfa2c27, 0x7d632dd0, 0x5b0d97aa));
    FourII(Quad(0x06cc5e8a, 0x3bfa2c27, 0x7d632dd0, 0x5b0d97aa), ABC, 56,
      Quad(0x7f81cc35, 0x7327d604, 0x4f9dbe3f, 0x094454ab));
    FourII(Quad(0x7f81cc35, 0x7327d604, 0x4f9dbe3f, 0x094454ab), ABC, 60,
      Quad(0x310ade8f, 0xc08226b3, 0xe484b9d8, 0x624d8cb2));
    StepsEnd(Quad(0x310ade8f, 0xc08226b3, 0xe484b9d8, 0x624d8cb2), ABC);
  }

  lemma WordsOfAbc(p: seq<bv8>)
    requires |p| == 64
    requires p[0] == 0x61 && p[1] == 0x62 && p[2] == 0x63 && p[3] == 0x80 && p[56] == 24
    requires forall k :: 3 < k < 64 && k != 56 ==> p[k] == 0
    ensures Decoded(p) == ABC
  {
    hide Decoded, ABC;
    AbcWords();
    forall i | 0 <= i < 16 ensures Decoded(p)[i] == ABC[i] {
      DecodedAt(p, i);
    }
  }

  lemma AbcBlock(m: seq<bv8>)
    requires |m| == 3 && m[0] == 0x61 && m[1] == 0x62 && m[2] == 0x63
    ensures |Padded(m)| == 64 && Block(INITIAL, Padded(m)) == Quad(0x98500190, 0xb04fd23c, 0x7d3f96d6, 0x727fe128)
  {
    hide *;
    OneBlockAt(m);
    Length3();
    forall k | 3 < k < 64 && k != 56 ensures Padded(m)[k] == 0 {
      if k >= 56 {
        var j := k - 56;
        assert Padded(m)[56 + j] == LengthBytes(3)[j];
      }
    }
    assert Padded(m)[56 + 0] == LengthBytes(3)[0];
    WordsOfAbc(Padded(m));
    AbcSteps();
    BlockIs(INITIAL, Padded(m));
    InitialIs();
    SumAbc();
  }

  lemma SumAbc()
    ensures Sum(Quad(0x67452301, 0xefcdab89, 0x98badcfe, 0x10325476),
                Quad(0x310ade8f, 0xc08226b3, 0xe484b9d8, 0x624d8cb2))
      == Quad(0x98500190, 0xb04fd23c, 0x7d3f96d6, 0x727fe128)
  {
  }

  lemma AbcBytes()
    ensures Bytes(0x98500190) == [0x90, 0x01, 0x50, 0x98]
    ensures Bytes(0xb04fd23c) == [0x3c, 0xd2, 0x4f, 0xb0]
    ensures Bytes(0x7d3f96d6) == [0xd6, 0x96, 0x3f, 0x7d]
    ensures Bytes(0x727fe128) == [0x28, 0xe1, 0x7f, 0x72]
  {
  }

  /** The digest of "abc". */
  lemma AbcDigest()
    ensures Digest([0x61, 0x62, 0x63]) == [0x90, 0x01, 0x50, 0x98, 0x3c, 0xd2, 0x4f, 0xb0,
        0xd6, 0x96, 0x3f, 0x7d, 0x28, 0xe1, 0x7f, 0x72]
  {
    hide *;
    var m: seq<bv8> := [0x61, 0x62, 0x63];
    AbcBlock(m);
    AbcBytes();
    OneBlockDigest(m, Quad(0x98500190, 0xb04fd23c, 0x7d3f96d6, 0x727fe128));
  }

}
