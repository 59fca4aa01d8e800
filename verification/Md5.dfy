/** MD5 of src/hash.c, against RFC 1321. */
module Md5 {

  /** A count word.  (The type UINT4 is meant to have 32 bits.) */
  type Word = x: int | 0 <= x < 0x1_0000_0000

  datatype Quad = Quad(a: bv32, b: bv32, c: bv32, d: bv32)

  const S11: nat := 7
  const S12: nat := 12
  const S13: nat := 17
  const S14: nat := 22
  const S21: nat := 5
  const S22: nat := 9
  const S23: nat := 14
  const S24: nat := 20
  const S31: nat := 4
  const S32: nat := 11
  const S33: nat := 16
  const S34: nat := 23
  const S41: nat := 6
  const S42: nat := 10
  const S43: nat := 15
  const S44: nat := 21

  function F(x: bv32, y: bv32, z: bv32): bv32 { (x & y) | (!x & z) }
  function G(x: bv32, y: bv32, z: bv32): bv32 { (x & z) | (y & !z) }
  function H(x: bv32, y: bv32, z: bv32): bv32 { x ^ y ^ z }
  function I(x: bv32, y: bv32, z: bv32): bv32 { y ^ (x | !z) }

  function RotateLeft(x: bv32, n: nat): bv32
    requires n <= 32
  {
    (x << n) | (x >> (32 - n))
  }

  function FF(a: bv32, b: bv32, c: bv32, d: bv32, x: bv32, s: nat, ac: bv32): bv32
    requires s <= 32
  {
    RotateLeft(a + (F(b, c, d) + x + ac), s) + b
  }

  function GG(a: bv32, b: bv32, c: bv32, d: bv32, x: bv32, s: nat, ac: bv32): bv32
    requires s <= 32
  {
    RotateLeft(a + (G(b, c, d) + x + ac), s) + b
  }

  function HH(a: bv32, b: bv32, c: bv32, d: bv32, x: bv32, s: nat, ac: bv32): bv32
    requires s <= 32
  {
    RotateLeft(a + (H(b, c, d) + x + ac), s) + b
  }

  function II(a: bv32, b: bv32, c: bv32, d: bv32, x: bv32, s: nat, ac: bv32): bv32
    requires s <= 32
  {
    RotateLeft(a + (I(b, c, d) + x + ac), s) + b
  }

  // ----- RFC 1321, section 3.4, as 64 equal steps on rotating registers -----

  function Sines1(i: nat): bv32 {
    match i
    case 0 => 0xd76aa478 case 1 => 0xe8c7b756 case 2 => 0x242070db case 3 => 0xc1bdceee
    case 4 => 0xf57c0faf case 5 => 0x4787c62a case 6 => 0xa8304613 case 7 => 0xfd469501
    case 8 => 0x698098d8 case 9 => 0x8b44f7af case 10 => 0xffff5bb1 case 11 => 0x895cd7be
    case 12 => 0x6b901122 case 13 => 0xfd987193 case 14 => 0xa679438e case _ => 0x49b40821
  }

  function Sines2(i: nat): bv32 {
    match i
    case 0 => 0xf61e2562 case 1 => 0xc040b340 case 2 => 0x265e5a51 case 3 => 0xe9b6c7aa
    case 4 => 0xd62f105d case 5 => 0x2441453 case 6 => 0xd8a1e681 case 7 => 0xe7d3fbc8
    case 8 => 0x21e1cde6 case 9 => 0xc33707d6 case 10 => 0xf4d50d87 case 11 => 0x455a14ed
    case 12 => 0xa9e3e905 case 13 => 0xfcefa3f8 case 14 => 0x676f02d9 case _ => 0x8d2a4c8a
  }

  function Sines3(i: nat): bv32 {
    match i
    case 0 => 0xfffa3942 case 1 => 0x8771f681 case 2 => 0x6d9d6122 case 3 => 0xfde5380c
    case 4 => 0xa4beea44 case 5 => 0x4bdecfa9 case 6 => 0xf6bb4b60 case 7 => 0xbebfbc70
    case 8 => 0x289b7ec6 case 9 => 0xeaa127fa case 10 => 0xd4ef3085 case 11 => 0x4881d05
    case 12 => 0xd9d4d039 case 13 => 0xe6db99e5 case 14 => 0x1fa27cf8 case _ => 0xc4ac5665
  }

  function Sines4(i: nat): bv32 {
    match i
    case 0 => 0xf4292244 case 1 => 0x432aff97 case 2 => 0xab9423a7 case 3 => 0xfc93a039
    case 4 => 0x655b59c3 case 5 => 0x8f0ccc92 case 6 => 0xffeff47d case 7 => 0x85845dd1
    case 8 => 0x6fa87e4f case 9 => 0xfe2ce6e0 case 10 => 0xa3014314 case 11 => 0x4e0811a1
    case 12 => 0xf7537e82 case 13 => 0xbd3af235 case 14 => 0x2ad7d2bb case _ => 0xeb86d391
  }

  /** T[i + 1] of the RFC. */
  function Sine(i: nat): bv32
    requires i < 64
  {
    if i < 16 then Sines1(i) else if i < 32 then Sines2(i - 16) else if i < 48 then Sines3(i - 32) else Sines4(i - 48)
  }

  /** The word of the block that step i uses. */
  function Index(i: nat): (k: nat)
    requires i < 64
    ensures k < 16
  {
    if i < 16 then i else if i < 32 then (5 * i + 1) % 16 else if i < 48 then (3 * i + 5) % 16 else (7 * i) % 16
  }

  function Among(k: nat, s0: nat, s1: nat, s2: nat, s3: nat): nat
    requires k < 4
  {
    if k == 0 then s0 else if k == 1 then s1 else if k == 2 then s2 else s3
  }

  function Shift(i: nat): (s: nat)
    requires i < 64
    ensures s <= 32
  {
    if i < 16 then Among(i % 4, S11, S12, S13, S14)
    else if i < 32 then Among(i % 4, S21, S22, S23, S24)
    else if i < 48 then Among(i % 4, S31, S32, S33, S34)
    else Among(i % 4, S41, S42, S43, S44)
  }

  function Mix(i: nat, q: Quad, x: seq<bv32>): bv32
    requires i < 64 && |x| == 16
  {
    var (w, s, t) := (x[Index(i)], Shift(i), Sine(i));
    if i < 16 then FF(q.a, q.b, q.c, q.d, w, s, t)
    else if i < 32 then GG(q.a, q.b, q.c, q.d, w, s, t)
    else if i < 48 then HH(q.a, q.b, q.c, q.d, w, s, t)
    else II(q.a, q.b, q.c, q.d, w, s, t)
  }

  /** Steps i to 63. */
  function Steps(q: Quad, x: seq<bv32>, i: nat): Quad
    requires i <= 64 && |x| == 16
    decreases 64 - i
  {
    if i == 64 then q else Steps(Quad(q.d, Mix(i, q, x), q.b, q.c), x, i + 1)
  }

  lemma FourSteps(q: Quad, x: seq<bv32>, i: nat, r: Quad)
    requires i <= 60 && |x| == 16 && r.a == Mix(i, q, x) && r.d == Mix(i + 1, Quad(q.d, r.a, q.b, q.c), x)
    requires r.c == Mix(i + 2, Quad(q.c, r.d, r.a, q.b), x) && r.b == Mix(i + 3, Quad(q.b, r.c, r.d, r.a), x)
    ensures Steps(q, x, i) == Steps(r, x, i + 4)
  {
    hide Mix;
    StepOne(q, x, i);
    StepOne(Quad(q.d, r.a, q.b, q.c), x, i + 1);
    StepOne(Quad(q.c, r.d, r.a, q.b), x, i + 2);
    StepOne(Quad(q.b, r.c, r.d, r.a), x, i + 3);
  }

  lemma StepOne(q: Quad, x: seq<bv32>, i: nat)
    requires i < 64 && |x| == 16
    ensures Steps(q, x, i) == Steps(Quad(q.d, Mix(i, q, x), q.b, q.c), x, i + 1)
  {
    hide Mix;
  }

  lemma {:induction false} FourFF(q: Quad, x: seq<bv32>, i: nat, r: Quad)
    requires 0 <= i < 16 && i % 4 == 0 && |x| == 16
    requires r.a == FF(q.a, q.b, q.c, q.d, x[Index(i)], S11, Sine(i))
    requires r.d == FF(q.d, r.a, q.b, q.c, x[Index(i + 1)], S12, Sine(i + 1))
    requires r.c == FF(q.c, r.d, r.a, q.b, x[Index(i + 2)], S13, Sine(i + 2))
    requires r.b == FF(q.b, r.c, r.d, r.a, x[Index(i + 3)], S14, Sine(i + 3))
    ensures Steps(q, x, i) == Steps(r, x, i + 4)
  {
    hide FF, GG, HH, II, Steps, Index, Sine;
    FourSteps(q, x, i, r);
  }

  lemma {:induction false} FourGG(q: Quad, x: seq<bv32>, i: nat, r: Quad)
    requires 16 <= i < 32 && i % 4 == 0 && |x| == 16
    requires r.a == GG(q.a, q.b, q.c, q.d, x[Index(i)], S21, Sine(i))
    requires r.d == GG(q.d, r.a, q.b, q.c, x[Index(i + 1)], S22, Sine(i + 1))
    requires r.c == GG(q.c, r.d, r.a, q.b, x[Index(i + 2)], S23, Sine(i + 2))
    requires r.b == GG(q.b, r.c, r.d, r.a, x[Index(i + 3)], S24, Sine(i + 3))
    ensures Steps(q, x, i) == Steps(r, x, i + 4)
  {
    hide FF, GG, HH, II, Steps, Index, Sine;
    FourSteps(q, x, i, r);
  }

  lemma {:induction false} FourHH(q: Quad, x: seq<bv32>, i: nat, r: Quad)
    requires 32 <= i < 48 && i % 4 == 0 && |x| == 16
    requires r.a == HH(q.a, q.b, q.c, q.d, x[Index(i)], S31, Sine(i))
    requires r.d == HH(q.d, r.a, q.b, q.c, x[Index(i + 1)], S32, Sine(i + 1))
    requires r.c == HH(q.c, r.d, r.a, q.b, x[Index(i + 2)], S33, Sine(i + 2))
    requires r.b == HH(q.b, r.c, r.d, r.a, x[Index(i + 3)], S34, Sine(i + 3))
    ensures Steps(q, x, i) == Steps(r, x, i + 4)
  {
    hide FF, GG, HH, II, Steps, Index, Sine;
    FourSteps(q, x, i, r);
  }

  lemma {:induction false} FourII(q: Quad, x: seq<bv32>, i: nat, r: Quad)
    requires 48 <= i < 64 && i % 4 == 0 && |x| == 16
    requires r.a == II(q.a, q.b, q.c, q.d, x[Index(i)], S41, Sine(i))
    requires r.d == II(q.d, r.a, q.b, q.c, x[Index(i + 1)], S42, Sine(i + 1))
    requires r.c == II(q.c, r.d, r.a, q.b, x[Index(i + 2)], S43, Sine(i + 2))
    requires r.b == II(q.b, r.c, r.d, r.a, x[Index(i + 3)], S44, Sine(i + 3))
    ensures Steps(q, x, i) == Steps(r, x, i + 4)
  {
    hide FF, GG, HH, II, Steps, Index, Sine;
    FourSteps(q, x, i, r);
  }

  method Round1(q0: Quad, x: seq<bv32>) returns (q: Quad)
    requires |x| == 16
    ensures Steps(q0, x, 0) == Steps(q, x, 16)
  {
    hide Steps, Mix, Shift, FF, GG, HH, II;
    q := q0;
    var Quad(a, b, c, d) := q0;
    a := FF(a, b, c, d, x[0], S11, 0xd76aa478);
    d := FF(d, a, b, c, x[1], S12, 0xe8c7b756);
    c := FF(c, d, a, b, x[2], S13, 0x242070db);
    b := FF(b, c, d, a, x[3], S14, 0xc1bdceee);
    FourFF(q, x, 0, Quad(a, b, c, d));
    q := Quad(a, b, c, d);
    a := FF(a, b, c, d, x[4], S11, 0xf57c0faf);
    d := FF(d, a, b, c, x[5], S12, 0x4787c62a);
    c := FF(c, d, a, b, x[6], S13, 0xa8304613);
    b := FF(b, c, d, a, x[7], S14, 0xfd469501);
    FourFF(q, x, 4, Quad(a, b, c, d));
    q := Quad(a, b, c, d);
    a := FF(a, b, c, d, x[8], S11, 0x698098d8);
    d := FF(d, a, b, c, x[9], S12, 0x8b44f7af);
    c := FF(c, d, a, b, x[10], S13, 0xffff5bb1);
    b := FF(b, c, d, a, x[11], S14, 0x895cd7be);
    FourFF(q, x, 8, Quad(a, b, c, d));
    q := Quad(a, b, c, d);
    a := FF(a, b, c, d, x[12], S11, 0x6b901122);
    d := FF(d, a, b, c, x[13], S12, 0xfd987193);
    c := FF(c, d, a, b, x[14], S13, 0xa679438e);
    b := FF(b, c, d, a, x[15], S14, 0x49b40821);
    FourFF(q, x, 12, Quad(a, b, c, d));
    q := Quad(a, b, c, d);
  }

  method Round2(q0: Quad, x: seq<bv32>) returns (q: Quad)
    requires |x| == 16
    ensures Steps(q0, x, 16) == Steps(q, x, 32)
  {
    hide Steps, Mix, Shift, FF, GG, HH, II;
    q := q0;
    var Quad(a, b, c, d) := q0;
    a := GG(a, b, c, d, x[1], S21, 0xf61e2562);
    d := GG(d, a, b, c, x[6], S22, 0xc040b340);
    c := GG(c, d, a, b, x[11], S23, 0x265e5a51);
    b := GG(b, c, d, a, x[0], S24, 0xe9b6c7aa);
    FourGG(q, x, 16, Quad(a, b, c, d));
    q := Quad(a, b, c, d);
    a := GG(a, b, c, d, x[5], S21, 0xd62f105d);
    d := GG(d, a, b, c, x[10], S22, 0x2441453);
    c := GG(c, d, a, b, x[15], S23, 0xd8a1e681);
    b := GG(b, c, d, a, x[4], S24, 0xe7d3fbc8);
    FourGG(q, x, 20, Quad(a, b, c, d));
    q := Quad(a, b, c, d);
    a := GG(a, b, c, d, x[9], S21, 0x21e1cde6);
    d := GG(d, a, b, c, x[14], S22, 0xc33707d6);
    c := GG(c, d, a, b, x[3], S23, 0xf4d50d87);
    b := GG(b, c, d, a, x[8], S24, 0x455a14ed);
    FourGG(q, x, 24, Quad(a, b, c, d));
    q := Quad(a, b, c, d);
    a := GG(a, b, c, d, x[13], S21, 0xa9e3e905);
    d := GG(d, a, b, c, x[2], S22, 0xfcefa3f8);
    c := GG(c, d, a, b, x[7], S23, 0x676f02d9);
    b := GG(b, c, d, a, x[12], S24, 0x8d2a4c8a);
    FourGG(q, x, 28, Quad(a, b, c, d));
    q := Quad(a, b, c, d);
  }

  method Round3(q0: Quad, x: seq<bv32>) returns (q: Quad)
    requires |x| == 16
    ensures Steps(q0, x, 32) == Steps(q, x, 48)
  {
    hide Steps, Mix, Shift, FF, GG, HH, II;
    q := q0;
    var Quad(a, b, c, d) := q0;
    a := HH(a, b, c, d, x[5], S31, 0xfffa3942);
    d := HH(d, a, b, c, x[8], S32, 0x8771f681);
    c := HH(c, d, a, b, x[11], S33, 0x6d9d6122);
    b := HH(b, c, d, a, x[14], S34, 0xfde5380c);
    FourHH(q, x, 32, Quad(a, b, c, d));
    q := Quad(a, b, c, d);
    a := HH(a, b, c, d, x[1], S31, 0xa4beea44);
    d := HH(d, a, b, c, x[4], S32, 0x4bdecfa9);
    c := HH(c, d, a, b, x[7], S33, 0xf6bb4b60);
    b := HH(b, c, d, a, x[10], S34, 0xbebfbc70);
    FourHH(q, x, 36, Quad(a, b, c, d));
    q := Quad(a, b, c, d);
    a := HH(a, b, c, d, x[13], S31, 0x289b7ec6);
    d := HH(d, a, b, c, x[0], S32, 0xeaa127fa);
    c := HH(c, d, a, b, x[3], S33, 0xd4ef3085);
    b := HH(b, c, d, a, x[6], S34, 0x4881d05);
    FourHH(q, x, 40, Quad(a, b, c, d));
    q := Quad(a, b, c, d);
    a := HH(a, b, c, d, x[9], S31, 0xd9d4d039);
    d := HH(d, a, b, c, x[12], S32, 0xe6db99e5);
    c := HH(c, d, a, b, x[15], S33, 0x1fa27cf8);
    b := HH(b, c, d, a, x[2], S34, 0xc4ac5665);
    FourHH(q, x, 44, Quad(a, b, c, d));
    q := Quad(a, b, c, d);
  }

  method Round4(q0: Quad, x: seq<bv32>) returns (q: Quad)
    requires |x| == 16
    ensures Steps(q0, x, 48) == Steps(q, x, 64)
  {
    hide Steps, Mix, Shift, FF, GG, HH, II;
    q := q0;
    var Quad(a, b, c, d) := q0;
    a := II(a, b, c, d, x[0], S41, 0xf4292244);
    d := II(d, a, b, c, x[7], S42, 0x432aff97);
    c := II(c, d, a, b, x[14], S43, 0xab9423a7);
    b := II(b, c, d, a, x[5], S44, 0xfc93a039);
    FourII(q, x, 48, Quad(a, b, c, d));
    q := Quad(a, b, c, d);
    a := II(a, b, c, d, x[12], S41, 0x655b59c3);
    d := II(d, a, b, c, x[3], S42, 0x8f0ccc92);
    c := II(c, d, a, b, x[10], S43, 0xffeff47d);
    b := II(b, c, d, a, x[1], S44, 0x85845dd1);
    FourII(q, x, 52, Quad(a, b, c, d));
    q := Quad(a, b, c, d);
    a := II(a, b, c, d, x[8], S41, 0x6fa87e4f);
    d := II(d, a, b, c, x[15], S42, 0xfe2ce6e0);
    c := II(c, d, a, b, x[6], S43, 0xa3014314);
    b := II(b, c, d, a, x[13], S44, 0x4e0811a1);
    FourII(q, x, 56, Quad(a, b, c, d));
    q := Quad(a, b, c, d);
    a := II(a, b, c, d, x[4], S41, 0xf7537e82);
    d := II(d, a, b, c, x[11], S42, 0xbd3af235);
    c := II(c, d, a, b, x[2], S43, 0x2ad7d2bb);
    b := II(b, c, d, a, x[9], S44, 0xeb86d391);
    FourII(q, x, 60, Quad(a, b, c, d));
    q := Quad(a, b, c, d);
  }

  // ----- words and bytes -----

  /** The bytes of a word, low-order byte first. */
  function Bytes(w: bv32): (s: seq<bv8>)
    ensures |s| == 4
  {
    [ByteOf(w, 0), ByteOf(w, 1), ByteOf(w, 2), ByteOf(w, 3)]
  }

  function ByteOf(w: bv32, k: nat): bv8 {
    if k == 0 then (w & 0xff) as bv8
    else if k == 1 then ((w >> 8) & 0xff) as bv8
    else if k == 2 then ((w >> 16) & 0xff) as bv8
    else ((w >> 24) & 0xff) as bv8
  }

  function WordOf(b0: bv8, b1: bv8, b2: bv8, b3: bv8): bv32 {
    (b0 as bv32) | ((b1 as bv32) << 8) | ((b2 as bv32) << 16) | ((b3 as bv32) << 24)
  }

  function Encoded(ws: seq<bv32>): (s: seq<bv8>)
    ensures |s| == 4 * |ws|
  {
    if ws == [] then [] else Bytes(ws[0]) + Encoded(ws[1..])
  }

  function Decoded(s: seq<bv8>): (ws: seq<bv32>)
    requires |s| % 4 == 0
    ensures |ws| == |s| / 4
  {
    if s == [] then [] else [WordOf(s[0], s[1], s[2], s[3])] + Decoded(s[4..])
  }

  lemma WordBytes(w: bv32)
    ensures var s := Bytes(w); WordOf(s[0], s[1], s[2], s[3]) == w
  {
  }

  lemma BytesWord(b0: bv8, b1: bv8, b2: bv8, b3: bv8)
    ensures Bytes(WordOf(b0, b1, b2, b3)) == [b0, b1, b2, b3]
  {
  }

  /** Decode undoes Encode. */
  lemma {:induction false} DecodeEncode(ws: seq<bv32>)
    ensures Decoded(Encoded(ws)) == ws
  {
    hide Bytes, WordOf;
    if ws != [] {
      WordBytes(ws[0]);
      DecodeEncode(ws[1..]);
      assert Encoded(ws)[4..] == Encoded(ws[1..]);
    }
  }

  /** Encode undoes Decode. */
  lemma {:induction false} EncodeDecode(s: seq<bv8>)
    requires |s| % 4 == 0
    ensures Encoded(Decoded(s)) == s
  {
    hide Bytes, WordOf;
    if s != [] {
      BytesWord(s[0], s[1], s[2], s[3]);
      EncodeDecode(s[4..]);
      assert s == [s[0], s[1], s[2], s[3]] + s[4..];
    }
  }

  lemma {:induction false} EncodedAppend(ws: seq<bv32>, w: bv32)
    ensures Encoded(ws + [w]) == Encoded(ws) + Bytes(w)
  {
    hide Bytes;
    if ws == [] {
      assert ws + [w] == [w] && [w][1..] == [];
    } else {
      EncodedAppend(ws[1..], w);
      assert (ws + [w])[1..] == ws[1..] + [w];
    }
  }

  lemma {:induction false} DecodedAppend(s: seq<bv8>, b0: bv8, b1: bv8, b2: bv8, b3: bv8)
    requires |s| % 4 == 0
    ensures Decoded(s + [b0, b1, b2, b3]) == Decoded(s) + [WordOf(b0, b1, b2, b3)]
  {
    hide WordOf;
    var t := [b0, b1, b2, b3];
    if s == [] {
      assert s + t == t && t[4..] == [];
    } else {
      DecodedAppend(s[4..], b0, b1, b2, b3);
      assert (s + t)[4..] == s[4..] + t;
    }
  }

  method Encode(output: array<bv8>, input: array<bv32>, len: nat)
    requires len % 4 == 0 && len <= output.Length && len / 4 <= input.Length && output as object != input
    modifies output
    ensures output[..len] == Encoded(input[..len / 4])
    ensures forall k :: len <= k < output.Length ==> output[k] == old(output[k])
  {
    hide Bytes, ByteOf, Encoded;
    var i, j := 0, 0;
    Empty(output[..], input[..]);
    while j < len
      modifies output
      invariant j == 4 * i <= len
      invariant output[..j] == Encoded(input[..i]) && forall k :: len <= k < output.Length ==>
        output[k] == old(output[k])
    {
      ghost var done := output[..j];
      output[j] := ByteOf(input[i], 0);
      output[j + 1] := ByteOf(input[i], 1);
      output[j + 2] := ByteOf(input[i], 2);
      output[j + 3] := ByteOf(input[i], 3);
      EncodedMore(input[..], i, done, output[..], j);
      i, j := i + 1, j + 4;
    }
  }

  lemma Empty(s: seq<bv8>, ws: seq<bv32>)
    ensures s[..0] == Encoded(ws[..0]) && ws[..0] == Decoded(s[..0]) && forall k :: 0 <= k <= |s| ==>
      ws[..0] == Decoded(s[k..k])
  {
  }

  lemma EncodedMore(ws: seq<bv32>, i: nat, done: seq<bv8>, s: seq<bv8>, j: nat)
    requires i < |ws| && done == Encoded(ws[..i]) && j + 4 <= |s| && |done| == j && s[..j] == done
    requires s[j] == ByteOf(ws[i], 0) && s[j + 1] == ByteOf(ws[i], 1) && s[j + 2] == ByteOf(ws[i], 2)
      && s[j + 3] == ByteOf(ws[i], 3)
    ensures s[..j + 4] == Encoded(ws[..i + 1])
  {
    hide ByteOf, Encoded;
    EncodedAppend(ws[..i], ws[i]);
    assert ws[..i + 1] == ws[..i] + [ws[i]];
    assert s[..j + 4] == done + [s[j], s[j + 1], s[j + 2], s[j + 3]];
  }

  lemma DecodedMore(s: seq<bv8>, from: nat, p: nat, done: seq<bv32>, ws: seq<bv32>, i: nat)
    requires from <= p && p + 4 <= |s| && (p - from) % 4 == 0 && done == Decoded(s[from..p]) && i < |ws|
      && |done| == i && ws[..i] == done
    requires ws[i] == WordOf(s[p], s[p + 1], s[p + 2], s[p + 3])
    ensures ws[..i + 1] == Decoded(s[from..p + 4])
  {
    hide WordOf, Decoded;
    DecodedAppend(s[from..p], s[p], s[p + 1], s[p + 2], s[p + 3]);
    assert s[from..p + 4] == s[from..p] + [s[p], s[p + 1], s[p + 2], s[p + 3]];
    assert ws[..i + 1] == done + [ws[i]];
  }

  /** input[from..from + len] becomes words. */
  method Decode(output: array<bv32>, input: array<bv8>, from: nat, len: nat)
    requires len % 4 == 0 && from + len <= input.Length && len / 4 <= output.Length && output as object != input
    modifies output
    ensures output[..len / 4] == Decoded(input[from..from + len])
  {
    hide WordOf, Decoded;
    var i, j := 0, 0;
    Empty(input[..], output[..]);
    assert input[from..from] == input[..][from..from];
    while j < len
      modifies output
      invariant j == 4 * i <= len && output[..i] == Decoded(input[from..from + j])
    {
      ghost var done := output[..i];
      var p := from + j;
      output[i] := WordOf(input[p], input[p + 1], input[p + 2], input[p + 3]);
      assert input[from..p] == input[..][from..p] && input[from..p + 4] == input[..][from..p + 4];
      DecodedMore(input[..], from, p, done, output[..], i);
      assert output[..i + 1] == output[..][..i + 1];
      i, j := i + 1, j + 4;
    }
  }

  method Copy(output: array<bv8>, to: nat, input: array<bv8>, from: nat, len: nat)
    requires to + len <= output.Length && from + len <= input.Length && output != input
    modifies output
    ensures output[..] == old(output[..to]) + input[from..from + len] + old(output[to + len..])
  {
    var i := 0;
    while i < len
      modifies output
      invariant 0 <= i <= len
      invariant output[..] == old(output[..to]) + input[from..from + i] + old(output[to + i..])
    {
      output[to + i] := input[from + i];
      i := i + 1;
    }
  }

  // ----- the message in blocks -----

  /** RFC 1321, section 3.4, for one block of 64 bytes. */
  function Block(q: Quad, block: seq<bv8>): Quad
    requires |block| == 64
  {
    Sum(q, Steps(q, Decoded(block), 0))
  }

  /** Addition modulo 2^32. */
  function Plus(x: bv32, y: bv32): bv32 { x + y }

  function Sum(q: Quad, r: Quad): Quad {
    Quad(Plus(q.a, r.a), Plus(q.b, r.b), Plus(q.c, r.c), Plus(q.d, r.d))
  }

  /** All whole blocks of m in order. */
  function Blocks(q: Quad, m: seq<bv8>): Quad
    decreases |m|
  {
    if |m| < 64 then q else Blocks(Block(q, m[..64]), m[64..])
  }

  lemma {:induction false} BlocksAppend(q: Quad, m: seq<bv8>, t: seq<bv8>)
    requires |m| % 64 == 0
    ensures Blocks(q, m + t) == Blocks(Blocks(q, m), t)
    decreases |m|
  {
    hide Block;
    if m == [] {
      assert m + t == t;
    } else {
      assert (m + t)[..64] == m[..64] && (m + t)[64..] == m[64..] + t;
      BlocksAppend(Block(q, m[..64]), m[64..], t);
    }
  }

  lemma OneBlock(q: Quad, m: seq<bv8>, b: seq<bv8>)
    requires |m| % 64 == 0 && |b| == 64
    ensures Blocks(q, m + b) == Block(Blocks(q, m), b)
  {
    hide Block;
    BlocksAppend(q, m, b);
    assert b[..64] == b && b[64..] == [];
  }

  /** The bytes of m that do not fill a block. */
  function Tail(m: seq<bv8>): (t: seq<bv8>)
    ensures |t| == |m| % 64
  {
    m[|m| - |m| % 64..]
  }

  lemma TailIdle(q: Quad, m: seq<bv8>)
    ensures Blocks(q, m[..|m| - |m| % 64]) == Blocks(q, m)
  {
    hide Block;
    BlocksAppend(q, m[..|m| - |m| % 64], Tail(m));
    assert m[..|m| - |m| % 64] + Tail(m) == m;
  }

  const INITIAL := Quad(0x67452301, 0xefcdab89, 0x98badcfe, 0x10325476)

  // ----- the length in bits, modulo 2^64, in two words -----

  function CountLow(len: nat): Word { (8 * len) % 0x1_0000_0000 }
  function CountHigh(len: nat): Word { (8 * len / 0x1_0000_0000) % 0x1_0000_0000 }

  /** The place in the buffer that MD5Update computes from the low word. */
  function BufferIndex(low: Word): nat { (low / 8) % 64 }

  lemma IndexIs(len: nat)
    ensures BufferIndex(CountLow(len)) == len % 64
  {
    var h := 8 * len / 0x1_0000_0000;
    assert CountLow(len) == 8 * (len - 0x2000_0000 * h);
    assert (len - 0x2000_0000 * h) % 64 == len % 64;
  }

  /** Adding the number of bits with the carry of MD5Update. */
  lemma CountsAdd(len: nat, n: nat)
    requires n < 0x1_0000_0000
    ensures var bits := (8 * n) % 0x1_0000_0000;
            var low := (CountLow(len) + bits) % 0x1_0000_0000;
            var carry := if low < bits then 1 else 0;
            low == CountLow(len + n) && ((CountHigh(len) + carry) % 0x1_0000_0000
              + n / 0x2000_0000) % 0x1_0000_0000 == CountHigh(len + n)
  {
    var w := 0x1_0000_0000;
    var bits := (8 * n) % w;
    var h, hn := 8 * len / w, n / 0x2000_0000;
    assert 8 * len == w * h + CountLow(len) && 8 * n == w * hn + bits;
    var sum := CountLow(len) + bits;
    var carry := if sum >= w then 1 else 0;
    assert 8 * (len + n) == w * (h + hn + carry) + (sum - w * carry);
    assert 0 <= sum - w * carry < w;
    Quotient(8 * (len + n), w, h + hn + carry, sum - w * carry);
    Quotient(sum, w, carry, sum - w * carry);
    ModSum(h, carry, hn, w);
  }

  lemma Quotient(x: int, w: int, q: int, r: int)
    requires w == 0x1_0000_0000 && x == w * q + r && 0 <= r < w
    ensures x / w == q && x % w == r
  {
  }

  lemma ModSum(a: int, b: int, c: int, w: int)
    requires w == 0x1_0000_0000
    ensures ((a % w + b) % w + c) % w == (a + b + c) % w
  {
  }

  // ----- padding: RFC 1321, sections 3.1 and 3.2 -----

  function Zeros(n: nat): (s: seq<bv8>)
    ensures |s| == n
  {
    seq(n, i => 0)
  }

  /** A one bit and as many zero bits as make the length 56 bytes modulo 64. */
  function Padding(len: nat): seq<bv8> {
    [0x80] + Zeros((119 - len % 64) % 64)
  }

  predicate Odd(x: int) { x % 2 == 1 }

  function Bit(b: bool): bv8 { if b then 1 else 0 }

  function FromBits(b0: bool, b1: bool, b2: bool, b3: bool, b4: bool, b5: bool, b6: bool, b7: bool): bv8 {
    Bit(b0) | (Bit(b1) << 1) | (Bit(b2) << 2) | (Bit(b3) << 3) | (Bit(b4) << 4) | (Bit(b5) << 5) | (Bit(b6) << 6)
      | (Bit(b7) << 7)
  }

  /** The byte with the value x. */
  function ByteBits(x: int): bv8
    requires 0 <= x < 256
  {
    var x1 := x / 2;
    var x2 := x1 / 2;
    var x3 := x2 / 2;
    var x4 := x3 / 2;
    var x5 := x4 / 2;
    var x6 := x5 / 2;
    FromBits(Odd(x), Odd(x1), Odd(x2), Odd(x3), Odd(x4), Odd(x5), Odd(x6), Odd(x6 / 2))
  }

  /** A count word as the four bytes that make it. */
  function WordBits(x: Word): bv32 {
    WordOf(ByteBits(x % 256), ByteBits(x / 256 % 256), ByteBits(x / 65536 % 256), ByteBits(x / 16777216))
  }

  /** The length of the message in bits, modulo 2^64, low-order word first. */
  function LengthBytes(len: nat): (s: seq<bv8>)
    ensures |s| == 8
  {
    Encoded([WordBits(CountLow(len)), WordBits(CountHigh(len))])
  }

  function Padded(m: seq<bv8>): seq<bv8> {
    m + Padding(|m|) + LengthBytes(|m|)
  }

  function Digest(m: seq<bv8>): (d: seq<bv8>)
    ensures |d| == 16
  {
    var q := Blocks(INITIAL, Padded(m));
    Encoded([q.a, q.b, q.c, q.d])
  }

  /** The padded message is in whole blocks, and the fewest of them that hold the message, the one bit
      and the length. */
  lemma PaddedLength(m: seq<bv8>)
    ensures |Padded(m)| % 64 == 0 && |m| + 9 <= |Padded(m)| < |m| + 9 + 64
  {
    hide LengthBytes;
    PadTo(|m|);
  }

  lemma PadTo(len: nat)
    ensures (len + 1 + (119 - len % 64) % 64) % 64 == 56
  {
    if len % 64 < 56 { assert (119 - len % 64) % 64 == 55 - len % 64; }
    else { assert (119 - len % 64) % 64 == 119 - len % 64; }
  }

  lemma WordsDiffer(x: Word, y: Word)
    requires WordBits(x) == WordBits(y)
    ensures x == y
  {
    hide WordOf, Bytes, ByteBits;
    BytesWord(ByteBits(x % 256), ByteBits(x / 256 % 256), ByteBits(x / 65536 % 256), ByteBits(x / 16777216));
    BytesWord(ByteBits(y % 256), ByteBits(y / 256 % 256), ByteBits(y / 65536 % 256), ByteBits(y / 16777216));
    ByteDiffers(x % 256, y % 256);
    ByteDiffers(x / 256 % 256, y / 256 % 256);
    ByteDiffers(x / 65536 % 256, y / 65536 % 256);
    ByteDiffers(x / 16777216, y / 16777216);
    FourDigits(x);
    FourDigits(y);
  }

  lemma BitsBack(b0: bool, b1: bool, b2: bool, b3: bool, b4: bool, b5: bool, b6: bool, b7: bool)
    ensures var w := FromBits(b0, b1, b2, b3, b4, b5, b6, b7);
      && b0 == (w & 1 == 1) && b1 == ((w >> 1) & 1 == 1) && b2 == ((w >> 2) & 1 == 1) && b3 == ((w >> 3) & 1 == 1)
      && b4 == ((w >> 4) & 1 == 1) && b5 == ((w >> 5) & 1 == 1) && b6 == ((w >> 6) & 1 == 1)
        && b7 == ((w >> 7) & 1 == 1)
  {
  }

  lemma SameBits(b0: bool, b1: bool, b2: bool, b3: bool, b4: bool, b5: bool, b6: bool, b7: bool,
                 c0: bool, c1: bool, c2: bool, c3: bool, c4: bool, c5: bool, c6: bool, c7: bool)
    requires FromBits(b0, b1, b2, b3, b4, b5, b6, b7) == FromBits(c0, c1, c2, c3, c4, c5, c6, c7)
    ensures b0 == c0 && b1 == c1 && b2 == c2 && b3 == c3 && b4 == c4 && b5 == c5 && b6 == c6 && b7 == c7
  {
    hide FromBits;
    BitsBack(b0, b1, b2, b3, b4, b5, b6, b7);
    BitsBack(c0, c1, c2, c3, c4, c5, c6, c7);
  }

  lemma ByteDiffers(x: int, y: int)
    requires 0 <= x < 256 && 0 <= y < 256 && ByteBits(x) == ByteBits(y)
    ensures x == y
  {
    hide FromBits, Odd;
    var x1, y1 := x / 2, y / 2;
    var x2, y2 := x1 / 2, y1 / 2;
    var x3, y3 := x2 / 2, y2 / 2;
    var x4, y4 := x3 / 2, y3 / 2;
    var x5, y5 := x4 / 2, y4 / 2;
    var x6, y6 := x5 / 2, y5 / 2;
    var x7, y7 := x6 / 2, y6 / 2;
    SameBits(Odd(x), Odd(x1), Odd(x2), Odd(x3), Odd(x4), Odd(x5), Odd(x6), Odd(x7),
             Odd(y), Odd(y1), Odd(y2), Odd(y3), Odd(y4), Odd(y5), Odd(y6), Odd(y7));
    Doubled(x7, y7);
    Doubled(x6, y6);
    Doubled(x5, y5);
    Doubled(x4, y4);
    Doubled(x3, y3);
    Doubled(x2, y2);
    Doubled(x1, y1);
    Doubled(x, y);
  }

  lemma Doubled(x: int, y: int)
    requires Odd(x) == Odd(y) && x / 2 == y / 2
    ensures x == y
  {
  }

  lemma FourDigits(x: int)
    ensures x == x % 256 + 256 * (x / 256 % 256) + 65536 * (x / 65536 % 256) + 16777216 * (x / 16777216)
  {
  }

  lemma SameCounts(len: nat, len': nat)
    requires CountLow(len) == CountLow(len') && CountHigh(len) == CountHigh(len') && -64 < len - len' < 64
    ensures len == len'
  {
    var w := 0x1_0000_0000;
    var h, h' := 8 * len / w, 8 * len' / w;
    assert 8 * (len - len') == w * (h - h');
  }

  /** Padding is unambiguous. */
  lemma PaddedInjective(m: seq<bv8>, m': seq<bv8>)
    requires Padded(m) == Padded(m')
    ensures m == m'
  {
    hide Encoded, CountLow, CountHigh, Decoded, WordBits;
    PaddedLength(m);
    PaddedLength(m');
    var p, p' := Padded(m), Padded(m');
    assert LengthBytes(|m|) == p[|p| - 8..] && LengthBytes(|m'|) == p'[|p'| - 8..];
    var ws, ws' := [WordBits(CountLow(|m|)), WordBits(CountHigh(|m|))],
      [WordBits(CountLow(|m'|)), WordBits(CountHigh(|m'|))];
    DecodeEncode(ws);
    DecodeEncode(ws');
    assert ws[0] == ws'[0] && ws[1] == ws'[1];
    WordsDiffer(CountLow(|m|), CountLow(|m'|));
    WordsDiffer(CountHigh(|m|), CountHigh(|m'|));
    SameCounts(|m|, |m'|);
    assert m == p[..|m|] && m' == p'[..|m|];
  }

  // ----- the context -----

  /** The loop of MD5Update, which tests i + 63 < inputLen in an unsigned int, does not see i + 63
      wrap around: the last i that it tests is small enough. */
  predicate NoWrap(index: nat, inputLen: nat) {
    && inputLen < 0x1_0000_0000
    && (inputLen < 64 - index || 64 - index + (inputLen - (64 - index)) / 64 * 64 + 63 < 0x1_0000_0000)
  }

  /** Exactly then the test says at every place of the loop whether a whole block is left. */
  lemma WrapIsExact(index: nat, inputLen: nat)
    requires index < 64 && inputLen < 0x1_0000_0000
    ensures NoWrap(index, inputLen) <==>
      forall i: nat :: i <= inputLen && (i + index) % 64 == 0 && i > 0 ==>
        (WholeBlock(i, inputLen) <==> i + 63 < inputLen)
  {
    var part := 64 - index;
    if inputLen >= part {
      var last := part + (inputLen - part) / 64 * 64;
      assert last <= inputLen < last + 64 && (last + index) % 64 == 0;
      if NoWrap(index, inputLen) {
        forall i: nat | i <= inputLen && (i + index) % 64 == 0 && i > 0 ensures WholeBlock(i, inputLen) <==>
          i + 63 < inputLen {
          Stride(i, index, inputLen);
        }
      } else {
        assert (last + 63) % 0x1_0000_0000 == last + 63 - 0x1_0000_0000;
        assert WholeBlock(last, inputLen);
      }
    }
  }

  lemma Stride(i: nat, index: nat, inputLen: nat)
    requires index < 64 && 0 < i <= inputLen && (i + index) % 64 == 0
    ensures i <= 64 - index + (inputLen - (64 - index)) / 64 * 64
  {
    var k := (i + index) / 64 - 1;
    assert i == 64 - index + 64 * k;
  }

  /** The test of the loop, on unsigned ints of 32 bits. */
  predicate WholeBlock(i: nat, inputLen: nat) {
    (i + 63) % 0x1_0000_0000 < inputLen
  }

  function QuadOf(s: seq<bv32>): Quad
    requires |s| == 4
  {
    Quad(s[0], s[1], s[2], s[3])
  }

  class Context {
    const state: array<bv32>
    const buffer: array<bv8>
    var count0: Word
    var count1: Word
    /** All input so far. */
    ghost var msg: seq<bv8>

    ghost predicate Shape() {
      state.Length == 4 && buffer.Length == 64 && state as object != buffer
    }

    /** The context depends on the whole message only, not on how it came in. */
    ghost predicate Valid()
      reads this, state, buffer
    {
      && Shape() && QuadOf(state[..]) == Blocks(INITIAL, msg) && buffer[..|msg| % 64] == Tail(msg)
      && count0 == CountLow(|msg|) && count1 == CountHigh(|msg|)
    }

    lemma ShapeIs()
      ensures Shape() <==> state.Length == 4 && buffer.Length == 64 && state as object != buffer
    {
    }

    /** MD5Init. */
    constructor ()
      ensures Valid() && msg == [] && fresh(state) && fresh(buffer)
    {
      hide *;
      state := new bv32[4];
      buffer := new bv8[64];
      count0, count1, msg := 0, 0, [];
      new;
      state[0] := 0x67452301;
      state[1] := 0xefcdab89;
      state[2] := 0x98badcfe;
      state[3] := 0x10325476;
      Started(state[..]);
      ValidIs();
    }

    /** MD5Transform on the 64 bytes of block from `from` on. */
    method Transform(block: array<bv8>, from: nat)
      requires Shape() && from + 64 <= block.Length && block as object != state
      modifies state
      ensures QuadOf(state[..]) == Block(QuadOf(old(state[..])), old(block[from..from + 64]))
    {
      hide *;
      ShapeIs();
      var x := new bv32[16];
      Decode(x, block, from, 64);
      var q := Quad(state[0], state[1], state[2], state[3]);
      QuadIs(state[..]);
      var r := Round1(q, x[..]);
      r := Round2(r, x[..]);
      r := Round3(r, x[..]);
      r := Round4(r, x[..]);
      StepsEnd(r, x[..]);
      state[0] := Plus(state[0], r.a);
      state[1] := Plus(state[1], r.b);
      state[2] := Plus(state[2], r.c);
      state[3] := Plus(state[3], r.d);
      assert x[..16] == x[..];
      QuadIs(state[..]);
      BlockIs(q, block[from..from + 64]);
      SumIs(q, r);
    }

    /** The count of bits in MD5Update. */
    method AddBits(inputLen: nat, ghost len: nat)
      requires inputLen < 0x1_0000_0000 && count0 == CountLow(len) && count1 == CountHigh(len)
      modifies `count0, `count1
      ensures count0 == CountLow(len + inputLen) && count1 == CountHigh(len + inputLen)
    {
      hide *;
      CountsAdd(len, inputLen);
      var bits := (8 * inputLen) % 0x1_0000_0000;
      count0 := (count0 + bits) % 0x1_0000_0000;
      if count0 < bits {
        count1 := (count1 + 1) % 0x1_0000_0000;
      }
      count1 := (count1 + inputLen / 0x2000_0000) % 0x1_0000_0000;
    }

    /** The blocks that MD5Update transforms: the first is filled up in the buffer. */
    method Absorb(input: array<bv8>, inputLen: nat, index: nat, ghost m: seq<bv8>)
      returns (i: nat)
      requires Shape() && inputLen <= input.Length && input != buffer && input as object != state
      requires index == |m| % 64 && buffer[..index] == Tail(m) && QuadOf(state[..]) == Blocks(INITIAL, m)
        && inputLen >= 64 - index
      requires NoWrap(index, inputLen)
      modifies state, buffer
      ensures 0 < i <= inputLen < i + 64 && (|m| + i) % 64 == 0 && QuadOf(state[..]) == Blocks(INITIAL, m + input[..i])
    {
      hide *;
      ShapeIs();
      ghost var data := input[..];
      var partLen := 64 - index;
      Copy(buffer, index, input, 0, partLen);
      assert input[0..0 + partLen] == data[..partLen] && buffer[0..64] == buffer[..];
      FirstBlock(INITIAL, m, data, partLen, buffer[..]);
      Transform(buffer, 0);
      i := partLen;
      ModShift(|m|, index, i);
      NextWhole(index, i, inputLen);
      while WholeBlock(i, inputLen)
        modifies state
        invariant WholeBlock(i, inputLen) <==> i + 63 < inputLen
        invariant 0 < i <= inputLen && (|m| + i) % 64 == 0 && QuadOf(state[..]) == Blocks(INITIAL, m + data[..i])
        decreases inputLen - i
      {
        NextBlock(INITIAL, m, data, i);
        assert input[i..i + 64] == data[i..i + 64];
        Transform(input, i);
        i := i + 64;
        ModShift(|m|, index, i);
        NextWhole(index, i, inputLen);
      }
      assert input[..i] == data[..i];
    }

    /** The end of MD5Update: what is left of the input goes to the buffer. */
    method KeepRest(input: array<bv8>, i: nat, inputLen: nat, index: nat, ghost m: seq<bv8>)
      requires Shape() && i <= inputLen <= input.Length && input != buffer && input as object != state
        && index + (inputLen - i) < 64
      requires if i == 0 then index == |m| % 64 && buffer[..index] == Tail(m) else (|m| + i) % 64 == 0 && index == 0
      modifies buffer
      ensures var all := m + input[..inputLen];
              buffer[..|all| % 64] == Tail(all) && Blocks(INITIAL, all) == if i == 0 then Blocks(INITIAL, m)
                else Blocks(INITIAL, m + input[..i])
    {
      hide *;
      ShapeIs();
      ghost var before, t := buffer[..index], input[i..i + (inputLen - i)];
      Copy(buffer, index, input, i, inputLen - i);
      Placed(before, t, buffer[..], index, inputLen - i);
      assert input[..inputLen] == input[..i] + t;
      LastBytes(INITIAL, m, input[..i], t, index, buffer[..], before);
      ghost var n := |m + input[..inputLen]| % 64;
      assert buffer[..n] == buffer[..][..n];
    }

    /** MD5Update: the first inputLen bytes of input are added to the message. */
    method Update(input: array<bv8>, inputLen: nat)
      requires Valid() && inputLen <= input.Length && NoWrap(|msg| % 64, inputLen)
      requires input != buffer && input as object != state
      modifies this, state, buffer
      ensures Valid() && msg == old(msg) + input[..inputLen]
    {
      hide *;
      ValidIs();
      ShapeIs();
      InputFits(|msg| % 64, inputLen);
      var index := BufferIndex(count0);
      IndexIs(|msg|);
      AddBits(inputLen, |msg|);
      var i := 0;
      if inputLen >= 64 - index {
        i := Absorb(input, inputLen, index, msg);
        index := 0;
      }
      KeepRest(input, i, inputLen, index, msg);
      msg := msg + input[..inputLen];
      ValidIs();
    }

    /** MD5Final: digest gets the MD5 of all input, and the context is overwritten with zeros. */
    method Final(digest: array<bv8>)
      requires Valid() && digest.Length == 16 && digest != buffer && digest as object != state
      modifies this, state, buffer, digest
      ensures digest[..] == Digest(old(msg))
      ensures count0 == 0 && count1 == 0 && state[..] == [0, 0, 0, 0] && buffer[..] == Zeros(64)
    {
      hide *;
      ValidIs();
      ShapeIs();
      ghost var m := msg;
      var bits, count := new bv8[8], new bv32[2];
      count[0], count[1] := WordBits(count0), WordBits(count1);
      Encode(bits, count, 8);
      assert count[..2] == [WordBits(count0), WordBits(count1)];
      LengthIs(|m|);
      var index := BufferIndex(count0);
      IndexIs(|m|);
      var padLen := if index < 56 then 56 - index else 120 - index;
      var padding := new bv8[64](i => if i == 0 then 0x80 else 0);
      PaddingIs(padding[..], |m|, padLen);
      assert padding[..][..padLen] == padding[..padLen];
      ShortNoWrap(|m| % 64, padLen);
      ShortNoWrap((|m| + padLen) % 64, 8);
      Update(padding, padLen);
      assert bits[..8] == bits[..];
      Update(bits, 8);
      ValidIs();
      Encode(digest, state, 16);
      DigestIs(m, state[..]);
      assert digest[..16] == digest[..] && state[..4] == state[..];
      count0, count1 := 0, 0;
      Erase(state, buffer);
    }

    lemma ValidIs()
      ensures Valid() <==>
        && state.Length == 4 && buffer.Length == 64 && state as object != buffer
        && QuadOf(state[..]) == Blocks(INITIAL, msg) && buffer[..|msg| % 64] == Tail(msg)
        && count0 == CountLow(|msg|) && count1 == CountHigh(|msg|)
    {
      hide Blocks, QuadOf, Tail, CountLow, CountHigh, INITIAL;
    }
  }

  lemma QuadIs(s: seq<bv32>)
    requires |s| == 4
    ensures QuadOf(s) == Quad(s[0], s[1], s[2], s[3])
  {
  }

  lemma StepsEnd(q: Quad, x: seq<bv32>)
    requires |x| == 16
    ensures Steps(q, x, 64) == q
  {
  }

  lemma BlockIs(q: Quad, block: seq<bv8>)
    requires |block| == 64
    ensures Block(q, block) == Sum(q, Steps(q, Decoded(block), 0))
  {
    hide Steps, Decoded, Sum;
  }

  lemma SumIs(q: Quad, r: Quad)
    ensures Sum(q, r) == Quad(Plus(q.a, r.a), Plus(q.b, r.b), Plus(q.c, r.c), Plus(q.d, r.d))
  {
    hide Plus;
  }

  lemma Started(s: seq<bv32>)
    requires |s| == 4 && s[0] == 0x67452301 && s[1] == 0xefcdab89 && s[2] == 0x98badcfe && s[3] == 0x10325476
    ensures QuadOf(s) == Blocks(INITIAL, []) && Tail([]) == [] && CountLow(0) == 0 == CountHigh(0)
  {
    hide *;
    NoBlocks(INITIAL);
    InitialIs();
    QuadIs(s);
    NoTail();
    ZeroCounts();
  }

  lemma InitialIs()
    ensures INITIAL == Quad(0x67452301, 0xefcdab89, 0x98badcfe, 0x10325476)
  {
  }

  lemma NoTail()
    ensures Tail([]) == []
  {
  }

  lemma ZeroCounts()
    ensures CountLow(0) == 0 == CountHigh(0)
  {
    hide Tail;
  }

  lemma NoBlocks(q: Quad)
    ensures Blocks(q, []) == q
  {
    hide Block;
  }

  lemma InputFits(index: nat, n: nat)
    requires NoWrap(index, n)
    ensures n < 0x1_0000_0000
  {
  }

  lemma ModShift(len: nat, index: nat, i: nat)
    requires index == len % 64
    ensures (len + i) % 64 == 0 <==> (i + index) % 64 == 0
    ensures i == 64 - index ==> (i + index) % 64 == 0
  {
  }

  lemma NextWhole(index: nat, i: nat, n: nat)
    requires NoWrap(index, n) && index < 64 && i <= n && (i + index) % 64 == 0 && i > 0
    ensures WholeBlock(i, n) <==> i + 63 < n
  {
    WrapIsExact(index, n);
  }

  lemma ShortNoWrap(index: nat, n: nat)
    requires index < 64 && n <= 64
    ensures NoWrap(index, n)
  {
  }

  /** The buffer has been filled up with the first bytes of the input. */
  lemma FirstBlock(q: Quad, m: seq<bv8>, input: seq<bv8>, partLen: nat, buffer: seq<bv8>)
    requires partLen == 64 - |m| % 64 && partLen <= |input| && buffer == Tail(m) + input[..partLen]
    ensures Block(Blocks(q, m), buffer) == Blocks(q, m + input[..partLen]) && (|m| + partLen) % 64 == 0
  {
    hide Block, Blocks;
    var whole := m[..|m| - |m| % 64];
    TailIdle(q, m);
    OneBlock(q, whole, buffer);
    assert whole + buffer == m + input[..partLen];
  }

  lemma NextBlock(q: Quad, m: seq<bv8>, input: seq<bv8>, i: nat)
    requires (|m| + i) % 64 == 0 && i + 64 <= |input|
    ensures Block(Blocks(q, m + input[..i]), input[i..i + 64]) == Blocks(q, m + input[..i + 64])
      && (|m| + i + 64) % 64 == 0
  {
    hide Block, Blocks;
    OneBlock(q, m + input[..i], input[i..i + 64]);
    assert m + input[..i] + input[i..i + 64] == m + input[..i + 64];
  }

  lemma Placed(before: seq<bv8>, t: seq<bv8>, buffer: seq<bv8>, index: nat, n: nat)
    requires |before| == index && |t| == n && index + n <= |buffer| && before + t <= buffer
    ensures buffer[..index] == before && buffer[index..index + n] == t
  {
  }

  /** What is left of the input, t, goes to the buffer and changes nothing else. */
  lemma LastBytes(q: Quad, m: seq<bv8>, s: seq<bv8>, t: seq<bv8>, index: nat, buffer: seq<bv8>, before: seq<bv8>)
    requires |before| == index && index + |t| < 64 && |buffer| == 64 && buffer[..index] == before
      && buffer[index..index + |t|] == t
    requires if s == [] then before == Tail(m) else (|m| + |s|) % 64 == 0 && index == 0
    ensures var all := m + (s + t); buffer[..|all| % 64] == Tail(all) && Blocks(q, all) == Blocks(q, m + s)
    ensures s == [] ==> m + s == m
  {
    hide Blocks;
    var all := m + (s + t);
    assert buffer[..index + |t|] == before + t;
    if s == [] {
      assert |all| % 64 == index + |t|;
      assert Tail(all) == Tail(m) + t;
      assert all[..|all| - |all| % 64] == m[..|m| - |m| % 64];
      TailIdle(q, m);
      assert m + s == m;
    } else {
      assert |all| % 64 == |t|;
      assert all[..|all| - |all| % 64] == m + s;
    }
    TailIdle(q, all);
  }

  method Erase(state: array<bv32>, buffer: array<bv8>)
    requires state.Length == 4 && buffer.Length == 64 && state as object != buffer
    modifies state, buffer
    ensures state[..] == [0, 0, 0, 0] && buffer[..] == Zeros(64)
  {
    for i := 0 to 4
      modifies state
      invariant forall k :: 0 <= k < i ==> state[k] == 0
    {
      state[i] := 0;
    }
    for i := 0 to 64
      modifies buffer
      invariant forall k :: 0 <= k < i ==> buffer[k] == 0
    {
      buffer[i] := 0;
    }
  }

  lemma LengthIs(len: nat)
    ensures LengthBytes(len) == Encoded([WordBits(CountLow(len)), WordBits(CountHigh(len))])
  {
    hide Encoded, WordBits, CountLow, CountHigh;
  }

  lemma PaddingIs(s: seq<bv8>, len: nat, padLen: nat)
    requires |s| == 64 && forall i :: 0 <= i < 64 ==> s[i] == if i == 0 then 0x80 else 0
    requires padLen == if len % 64 < 56 then 56 - len % 64 else 120 - len % 64
    ensures 0 < padLen <= 64 && s[..padLen] == Padding(len)
  {
    PadTo(len);
  }

  lemma DigestIs(m: seq<bv8>, s: seq<bv32>)
    requires |s| == 4 && QuadOf(s) == Blocks(INITIAL, m + Padding(|m|) + LengthBytes(|m|))
    ensures Encoded(s) == Digest(m)
  {
    hide Encoded, Blocks, Padding, LengthBytes;
    assert s == [s[0], s[1], s[2], s[3]];
  }
}
