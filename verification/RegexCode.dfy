/** Compiled patterns as bytes: opcodes, displacements, bit sets, the code of a pattern, and the
    decoding that the matcher does. */
module RegexCode {
  import opened RegexSyntax
  import opened RegexProgram

  // Opcodes, in the order of enum regexp_compiled_ops.
  const C_END: byte := 0
  const C_BOL: byte := 1
  const C_EOL: byte := 2
  const C_SET: byte := 3
  const C_EXACT: byte := 4
  const C_ANYCHAR: byte := 5
  const C_START_MEMORY: byte := 6
  const C_END_MEMORY: byte := 7
  const C_MATCH_MEMORY: byte := 8
  const C_JUMP: byte := 9
  const C_STAR_JUMP: byte := 10
  const C_FAILURE_JUMP: byte := 11
  const C_UPDATE_FAILURE_JUMP: byte := 12
  const C_DUMMY_FAILURE_JUMP: byte := 13
  const C_BEGBUF: byte := 14
  const C_ENDBUF: byte := 15
  const C_WORDBEG: byte := 16
  const C_WORDEND: byte := 17
  const C_WORDBOUND: byte := 18
  const C_NOTWORDBOUND: byte := 19
  const C_SYNTAXSPEC: byte := 20
  const C_NOTSYNTAXSPEC: byte := 21

  // ----- bits -----

  predicate Bit(x: int, k: nat)
    decreases k
  {
    if k == 0 then x % 2 == 1 else Bit(x / 2, k - 1)
  }

  /** x with bit k set, as `x |= 1 << k` does. */
  function SetBit(x: nat, k: nat): nat
    decreases k
  {
    if k == 0 then (if x % 2 == 1 then x else x + 1) else x % 2 + 2 * SetBit(x / 2, k - 1)
  }

  lemma {:induction false} SetBitSets(x: nat, k: nat, j: nat)
    ensures Bit(SetBit(x, k), j) <==> j == k || Bit(x, j)
    decreases k
  {
    if k > 0 && j > 0 {
      SetBitSets(x / 2, k - 1, j - 1);
      assert SetBit(x, k) / 2 == SetBit(x / 2, k - 1);
    } else if k == 0 && j > 0 {
      assert SetBit(x, 0) / 2 == x / 2;
    }
  }

  function Pow2(n: nat): nat {
    if n == 0 then 1 else 2 * Pow2(n - 1)
  }

  lemma {:induction false} SetBitBounded(x: nat, k: nat, n: nat)
    requires x < Pow2(n) && k < n
    ensures SetBit(x, k) < Pow2(n)
    decreases k
  {
    if k > 0 { SetBitBounded(x / 2, k - 1, n - 1); }
    BelowTwice(x, k, Pow2(n - 1));
  }

  lemma BelowTwice(x: nat, k: nat, half: nat)
    requires x < 2 * half && (k > 0 ==> SetBit(x / 2, k - 1) < half)
    ensures SetBit(x, k) < 2 * half
  {
  }

  /** `x ^ 0xff` flips every bit. */
  lemma {:induction false} ComplementFlips(x: nat, n: nat, k: nat)
    requires x < Pow2(n) && k < n
    ensures Bit(Pow2(n) - 1 - x, k) <==> !Bit(x, k)
    decreases n
  {
    if k > 0 {
      ComplementFlips(x / 2, n - 1, k - 1);
      assert (Pow2(n) - 1 - x) / 2 == Pow2(n - 1) - 1 - x / 2;
    }
  }

  lemma {:induction false} SameBits(x: nat, y: nat, n: nat)
    requires x < Pow2(n) && y < Pow2(n)
    requires forall k: nat :: k < n ==> (Bit(x, k) <==> Bit(y, k))
    ensures x == y
    decreases n
  {
    if n > 0 {
      assert Bit(x, 0) <==> Bit(y, 0);
      forall k: nat | k < n - 1 ensures Bit(x / 2, k) <==> Bit(y / 2, k) {
        assert Bit(x, k + 1) <==> Bit(y, k + 1);
      }
      SameBits(x / 2, y / 2, n - 1);
    }
  }

  function FromBits(bs: seq<bool>): (x: nat)
    ensures x < Pow2(|bs|)
  {
    if bs == [] then 0 else (if bs[0] then 1 else 0) + 2 * FromBits(bs[1..])
  }

  lemma {:induction false} FromBitsBit(bs: seq<bool>, k: nat)
    requires k < |bs|
    ensures Bit(FromBits(bs), k) <==> bs[k]
    decreases |bs|
  {
    if k > 0 { FromBitsBit(bs[1..], k - 1); }
  }

  // ----- character sets: 256 bits in 32 bytes -----

  predicate InBits(bits: seq<byte>, c: byte)
    requires |bits| == 32
  {
    Bit(bits[c / 8], c % 8)
  }

  function Members(bits: seq<byte>): set<byte>
    requires |bits| == 32
  {
    set c: byte | 0 <= c < 256 && InBits(bits, c)
  }

  lemma Pow2Eight()
    ensures Pow2(8) == 256
  {
    assert Pow2(4) == 16;
  }

  function ByteOf(cs: set<byte>, a: nat): byte
    requires a < 32
  {
    Pow2Eight();
    FromBits(seq(8, k requires 0 <= k < 8 => 8 * a + k in cs))
  }

  function Bitmap(cs: set<byte>): seq<byte> {
    seq(32, a requires 0 <= a < 32 => ByteOf(cs, a))
  }

  lemma BitmapMembers(cs: set<byte>)
    ensures |Bitmap(cs)| == 32 && Members(Bitmap(cs)) == cs
  {
    forall c: byte ensures InBits(Bitmap(cs), c) <==> c in cs {
      FromBitsBit(seq(8, k requires 0 <= k < 8 => 8 * (c / 8) + k in cs), c % 8);
      assert 8 * (c / 8) + c % 8 == c;
    }
  }

  lemma MembersBitmap(bits: seq<byte>)
    requires |bits| == 32
    ensures Bitmap(Members(bits)) == bits
  {
    var cs := Members(bits);
    Pow2Eight();
    BitmapMembers(cs);
    forall a | 0 <= a < 32 ensures Bitmap(cs)[a] == bits[a] {
      forall k: nat | k < 8 ensures Bit(Bitmap(cs)[a], k) <==> Bit(bits[a], k) {
        var c: byte := 8 * a + k;
        assert c / 8 == a && c % 8 == k;
        assert InBits(Bitmap(cs), c) <==> c in cs;
        assert InBits(bits, c) <==> c in cs;
      }
      SameBits(Bitmap(cs)[a], bits[a], 8);
    }
  }

  // ----- displacements -----

  /** The two bytes that PUT_ADDR stores. */
  function Disp(d: int): seq<byte> {
    [d % 256, (d / 256) % 256]
  }

  function Signed16(lo: byte, hi: byte): int {
    var a := lo + 256 * hi;
    if a >= 32768 then a - 65536 else a
  }

  lemma DispSigned(d: int)
    requires -32768 <= d < 32768
    ensures Signed16(Disp(d)[0], Disp(d)[1]) == d
  {
  }

  // ----- decoding -----

  /** Where the jump at pc goes. */
  function TargetAt(code: seq<byte>, pc: nat): int
    requires pc + 2 < |code|
  {
    pc + 3 + Signed16(code[pc + 1], code[pc + 2])
  }

  function TestAt(op: byte): (a: Assertion)
    requires IsTestOp(op)
  {
    if op == C_BOL then Bol else if op == C_EOL then Eol else if op == C_BEGBUF then BegBuf
    else if op == C_ENDBUF then EndBuf else if op == C_WORDBEG then WordBeg else if op == C_WORDEND then WordEnd
    else if op == C_WORDBOUND then WordBound else NotWordBound
  }

  predicate IsTestOp(op: byte) {
    op == C_BOL || op == C_EOL || C_BEGBUF <= op <= C_NOTWORDBOUND
  }

  predicate IsJumpOp(op: byte) {
    C_JUMP <= op <= C_DUMMY_FAILURE_JUMP
  }

  function EaterOf(code: seq<byte>, pc: nat): Instr
    requires pc < |code|
  {
    var op := code[pc];
    if op == C_ANYCHAR then Eat(AnyChar, pc + 1)
    else if op == C_SET then if pc + 33 <= |code| then Eat(InSet(Members(code[pc + 1..pc + 33])), pc + 33) else Bad
    else if pc + 1 >= |code| then Bad
    else if op == C_EXACT then Eat(Exact(code[pc + 1]), pc + 2)
    else if op == C_SYNTAXSPEC then Eat(Syntax(code[pc + 1]), pc + 2)
    else if op == C_NOTSYNTAXSPEC then Eat(NotSyntax(code[pc + 1]), pc + 2)
    else Bad
  }

  function JumpOf(code: seq<byte>, pc: nat): Instr
    requires pc < |code|
  {
    var op := code[pc];
    if pc + 2 >= |code| then Bad
    else
      var x := TargetAt(code, pc);
      if op == C_JUMP then Jump(x)
      else if op == C_STAR_JUMP then StarJump(x)
      else if op == C_UPDATE_FAILURE_JUMP then UpdateJump(x)
      else if op == C_FAILURE_JUMP then Fork(pc + 3, x)
      else if op == C_DUMMY_FAILURE_JUMP && pc + 5 < |code| && code[pc + 3] == C_FAILURE_JUMP then
        Dummy(x, TargetAt(code, pc + 3))
      else Bad
  }

  /** The instruction that the matcher finds at pc. */
  function At(code: seq<byte>, pc: nat): Instr
    requires pc < |code|
  {
    var op := code[pc];
    if op == C_END then End
    else if IsTestOp(op) then Test(TestAt(op), pc + 1)
    else if IsJumpOp(op) then JumpOf(code, pc)
    else if op == C_START_MEMORY || op == C_END_MEMORY then
      if pc + 1 < |code| then Mem(code[pc + 1], op == C_START_MEMORY, pc + 2) else Bad
    else if op == C_MATCH_MEMORY then if pc + 1 < |code| then Back(code[pc + 1], pc + 2) else Bad
    else EaterOf(code, pc)
  }

  function Decode(code: seq<byte>): (p: Program)
    ensures |p| == |code|
  {
    seq(|code|, pc requires 0 <= pc < |code| => At(code, pc))
  }

  // ----- the code of a pattern -----

  function OpOf(a: Assertion): byte {
    match a
    case Bol => C_BOL
    case Eol => C_EOL
    case BegBuf => C_BEGBUF
    case EndBuf => C_ENDBUF
    case WordBeg => C_WORDBEG
    case WordEnd => C_WORDEND
    case WordBound => C_WORDBOUND
    case NotWordBound => C_NOTWORDBOUND
  }

  function AtomCode(cl: CharClass): (code: seq<byte>)
    ensures |code| == AtomLen(cl)
  {
    match cl
    case Exact(c) => [C_EXACT, c]
    case AnyChar => [C_ANYCHAR]
    case InSet(cs) => [C_SET] + Bitmap(cs)
    case Syntax(k) => [C_SYNTAXSPEC, k]
    case NotSyntax(k) => [C_NOTSYNTAXSPEC, k]
  }

  function JumpCode(op: byte, d: int): (code: seq<byte>)
    ensures |code| == 3
  {
    [op] + Disp(d)
  }

  function AltBytes(x: seq<byte>, y: seq<byte>): (code: seq<byte>)
    ensures |code| == 6 + |x| + |y|
  {
    JumpCode(C_FAILURE_JUMP, |x| + 3) + x + JumpCode(C_JUMP, |y|) + y
  }

  function OptBytes(x: seq<byte>): (code: seq<byte>)
    ensures |code| == 3 + |x|
  {
    JumpCode(C_FAILURE_JUMP, |x|) + x
  }

  function LoopBytes(x: seq<byte>): (code: seq<byte>)
    ensures |code| == 6 + |x|
  {
    JumpCode(C_FAILURE_JUMP, |x| + 3) + x + JumpCode(C_STAR_JUMP, -6 - |x|)
  }

  function PlusBytes(x: seq<byte>): (code: seq<byte>)
    ensures |code| == 9 + |x|
  {
    JumpCode(C_DUMMY_FAILURE_JUMP, 3) + LoopBytes(x)
  }

  function GroupBytes(g: byte, x: seq<byte>): (code: seq<byte>)
    ensures |code| == if g == 0 then |x| else 4 + |x|
  {
    if g == 0 then x else [C_START_MEMORY, g] + x + [C_END_MEMORY, g]
  }

  function Gen(re: Re): (code: seq<byte>)
    ensures |code| == Len(re)
  {
    match re
    case Eps => []
    case Atom(cl) => AtomCode(cl)
    case Assert(a) => [OpOf(a)]
    case Backref(n) => [C_MATCH_MEMORY, n]
    case Seq(l, r) => Gen(l) + Gen(r)
    case Alt(l, r) => AltBytes(Gen(l), Gen(r))
    case Opt(b) => OptBytes(Gen(b))
    case Star(b) => LoopBytes(Gen(b))
    case Plus(b) => PlusBytes(Gen(b))
    case Group(g, b) => GroupBytes(g, Gen(b))
  }

  lemma GenIs(re: Re)
    ensures |Gen(re)| == Len(re)
    ensures re.Eps? ==> Gen(re) == []
    ensures re.Seq? ==> Gen(re) == Gen(re.left) + Gen(re.right)
    ensures re.Alt? ==> Gen(re) == AltBytes(Gen(re.left), Gen(re.right))
    ensures re.Opt? ==> Gen(re) == OptBytes(Gen(re.body))
    ensures re.Star? ==> Gen(re) == LoopBytes(Gen(re.body))
    ensures re.Plus? ==> Gen(re) == PlusBytes(Gen(re.body))
    ensures re.Group? ==> Gen(re) == GroupBytes(re.reg, Gen(re.body))
  {
    hide AltBytes, OptBytes, LoopBytes, PlusBytes, GroupBytes, AtomCode, Len;
  }

  function Compile(re: Re): seq<byte> {
    Gen(re) + [C_END]
  }

  /** Every displacement in the code of re fits in 16 bits. */
  predicate Encodable(re: Re) {
    match re
    case Seq(l, r) => Encodable(l) && Encodable(r)
    case Alt(l, r) => Encodable(l) && Encodable(r) && Len(l) + 3 < 32768 && Len(r) < 32768
    case Opt(b) => Encodable(b) && Len(b) < 32768
    case Star(b) => Encodable(b) && Len(b) + 6 <= 32768
    case Plus(b) => Encodable(b) && Len(b) + 6 <= 32768
    case Group(_, b) => Encodable(b)
    case _ => true
  }

  lemma {:induction false} ShortEncodable(re: Re)
    requires Len(re) < 32768
    ensures Encodable(re)
    decreases re
  {
    match re
    case Seq(l, r) => ShortEncodable(l); ShortEncodable(r);
    case Alt(l, r) => ShortEncodable(l); ShortEncodable(r);
    case Opt(b) => ShortEncodable(b);
    case Star(b) => ShortEncodable(b);
    case Plus(b) => ShortEncodable(b);
    case Group(_, b) => ShortEncodable(b);
    case _ =>
  }

  // ----- decoding the code of a pattern gives its layout -----

  /** part lies in code at offset o. */
  ghost predicate Has(code: seq<byte>, o: nat, part: seq<byte>) {
    o + |part| <= |code| && code[o..o + |part|] == part
  }

  lemma HasSplit(code: seq<byte>, o: nat, a: seq<byte>, b: seq<byte>)
    requires Has(code, o, a + b)
    ensures Has(code, o, a) && Has(code, o + |a|, b)
  {
    var s := code[o..o + |a + b|];
    assert s == a + b;
    assert code[o..o + |a|] == s[..|a|] == a;
    assert code[o + |a|..o + |a| + |b|] == s[|a|..] == b;
  }

  lemma HasByte(code: seq<byte>, o: nat, part: seq<byte>, k: nat)
    requires Has(code, o, part) && k < |part|
    ensures code[o + k] == part[k]
  {
    assert code[o..o + |part|][k] == part[k];
  }

  lemma JumpDecodes(code: seq<byte>, o: nat, op: byte, d: int)
    requires Has(code, o, JumpCode(op, d)) && -32768 <= d < 32768
    ensures o + 2 < |code| && code[o] == op && TargetAt(code, o) == o + 3 + d
  {
    HasByte(code, o, JumpCode(op, d), 0);
    HasByte(code, o, JumpCode(op, d), 1);
    HasByte(code, o, JumpCode(op, d), 2);
    DispSigned(d);
  }

  lemma LeafFits(code: seq<byte>, o: nat, re: Re)
    requires Has(code, o, Gen(re)) && (re.Eps? || re.Atom? || re.Assert? || re.Backref?)
    ensures Fits(Decode(code), o, re)
  {
    if re.Atom? && re.cl.InSet? {
      HasByte(code, o, Gen(re), 0);
      assert code[o + 1..o + 33] == code[o..o + 33][1..] == Bitmap(re.cl.members);
      BitmapMembers(re.cl.members);
    } else if !re.Eps? {
      HasByte(code, o, Gen(re), 0);
      if Len(re) > 1 { HasByte(code, o, Gen(re), 1); }
    }
  }

  lemma {:induction false} GenFits(code: seq<byte>, o: nat, re: Re)
    requires Has(code, o, Gen(re)) && Encodable(re)
    ensures Fits(Decode(code), o, re)
    decreases re, 1
  {
    hide *;
    match re
    case Seq(l, r) => SeqFits(code, o, l, r);
    case Alt(l, r) => AltFits(code, o, l, r);
    case Opt(b) => OptFits(code, o, b);
    case Star(b) => StarFits(code, o, b);
    case Plus(b) => PlusFits(code, o, b);
    case Group(g, b) => GroupFits(code, o, g, b);
    case _ => LeafFits(code, o, re);
  }

  lemma {:induction false} SeqFits(code: seq<byte>, o: nat, l: Re, r: Re)
    requires Has(code, o, Gen(Seq(l, r))) && Encodable(Seq(l, r))
    ensures Fits(Decode(code), o, Seq(l, r))
    decreases Seq(l, r), 0
  {
    hide *;
    GenIs(Seq(l, r));
    GenIs(l);
    EncodableParts(Seq(l, r));
    HasSplit(code, o, Gen(l), Gen(r));
    GenFits(code, o, l);
    GenFits(code, o + Len(l), r);
    SeqFitsIs(Decode(code), o, l, r);
  }

  /** What Encodable says of the parts. */
  lemma EncodableParts(re: Re)
    requires Encodable(re)
    ensures re.Seq? || re.Alt? ==> Encodable(re.left) && Encodable(re.right)
    ensures re.Alt? ==> Len(re.left) + 3 < 32768 && Len(re.right) < 32768
    ensures re.Opt? || re.Star? || re.Plus? || re.Group? ==> Encodable(re.body)
    ensures re.Opt? ==> Len(re.body) < 32768
    ensures re.Star? || re.Plus? ==> Len(re.body) + 6 <= 32768
  {
    hide Len;
  }

  lemma SeqFitsIs(p: Program, o: nat, l: Re, r: Re)
    requires Fits(p, o, l) && Fits(p, o + Len(l), r)
    ensures Fits(p, o, Seq(l, r))
  {
    hide Len, LoopFits, LeafShape;
  }

  lemma HasLength(code: seq<byte>, o: nat, part: seq<byte>)
    requires Has(code, o, part)
    ensures o + |part| <= |code|
  {
  }

  /** What the matcher finds where a jump was stored. */
  lemma JumpAt(code: seq<byte>, o: nat, op: byte, d: int)
    requires Has(code, o, JumpCode(op, d)) && -32768 <= d < 32768
    ensures o + 2 < |code|
    ensures op == C_FAILURE_JUMP ==> Decode(code)[o] == Fork(o + 3, o + 3 + d)
    ensures op == C_JUMP ==> Decode(code)[o] == Jump(o + 3 + d)
    ensures op == C_STAR_JUMP ==> Decode(code)[o] == StarJump(o + 3 + d)
  {
    JumpDecodes(code, o, op, d);
  }

  lemma {:induction false} AltFits(code: seq<byte>, o: nat, l: Re, r: Re)
    requires Has(code, o, Gen(Alt(l, r))) && Encodable(Alt(l, r))
    ensures Fits(Decode(code), o, Alt(l, r))
    decreases Alt(l, r), 0
  {
    hide *;
    GenIs(Alt(l, r));
    GenIs(l);
    GenIs(r);
    EncodableParts(Alt(l, r));
    AltHas(code, o, Gen(l), Gen(r));
    JumpAt(code, o, C_FAILURE_JUMP, Len(l) + 3);
    JumpAt(code, o + 3 + Len(l), C_JUMP, Len(r));
    GenFits(code, o + 3, l);
    GenFits(code, o + 6 + Len(l), r);
    AltShapeIs(Decode(code), o, Len(l), Len(r));
    AltFitsIs(Decode(code), o, l, r);
  }

  lemma AltHas(code: seq<byte>, o: nat, x: seq<byte>, y: seq<byte>)
    requires Has(code, o, AltBytes(x, y))
    ensures Has(code, o, JumpCode(C_FAILURE_JUMP, |x| + 3)) && Has(code, o + 3, x)
    ensures Has(code, o + 3 + |x|, JumpCode(C_JUMP, |y|)) && Has(code, o + 6 + |x|, y)
    ensures o + 6 + |x| + |y| <= |Decode(code)|
  {
    hide Has, JumpCode;
    var a, b := JumpCode(C_FAILURE_JUMP, |x| + 3), JumpCode(C_JUMP, |y|);
    HasLength(code, o, a + x + b + y);
    HasSplit(code, o, a + x + b, y);
    HasSplit(code, o, a + x, b);
    HasSplit(code, o, a, x);
  }

  lemma AltShapeIs(p: Program, o: nat, m: nat, n: nat)
    requires o + 6 + m + n <= |p| && p[o] == Fork(o + 3, o + 6 + m) && p[o + 3 + m] == Jump(o + 6 + m + n)
    ensures AltShape(p, o, m, n)
  {
  }

  lemma AltFitsIs(p: Program, o: nat, l: Re, r: Re)
    requires AltShape(p, o, Len(l), Len(r)) && Fits(p, o + 3, l) && Fits(p, o + 6 + Len(l), r)
    ensures Fits(p, o, Alt(l, r))
  {
    hide AltShape, Len, LoopFits;
  }

  lemma {:induction false} OptFits(code: seq<byte>, o: nat, b: Re)
    requires Has(code, o, Gen(Opt(b))) && Encodable(Opt(b))
    ensures Fits(Decode(code), o, Opt(b))
    decreases Opt(b), 0
  {
    hide *;
    GenIs(Opt(b));
    GenIs(b);
    EncodableParts(Opt(b));
    OptHas(code, o, Gen(b));
    JumpAt(code, o, C_FAILURE_JUMP, Len(b));
    GenFits(code, o + 3, b);
    OptFitsIs(Decode(code), o, b);
  }

  lemma OptHas(code: seq<byte>, o: nat, x: seq<byte>)
    requires Has(code, o, OptBytes(x))
    ensures Has(code, o, JumpCode(C_FAILURE_JUMP, |x|)) && Has(code, o + 3, x) && o + 3 + |x| <= |Decode(code)|
  {
    hide Has, JumpCode;
    HasLength(code, o, JumpCode(C_FAILURE_JUMP, |x|) + x);
    HasSplit(code, o, JumpCode(C_FAILURE_JUMP, |x|), x);
  }

  lemma OptFitsIs(p: Program, o: nat, b: Re)
    requires o + 3 + Len(b) <= |p| && p[o] == Fork(o + 3, o + 3 + Len(b)) && Fits(p, o + 3, b)
    ensures Fits(p, o, Opt(b))
  {
    hide Len, LoopFits, LeafShape;
  }

  lemma {:induction false} StarFits(code: seq<byte>, o: nat, b: Re)
    requires Has(code, o, Gen(Star(b))) && Encodable(Star(b))
    ensures Fits(Decode(code), o, Star(b))
    decreases Star(b), 0
  {
    hide *;
    GenIs(Star(b));
    EncodableParts(Star(b));
    LoopBytesFit(code, o, b);
    StarFitsIs(Decode(code), o, b);
  }

  lemma StarFitsIs(p: Program, o: nat, b: Re)
    requires LoopFits(p, o, b)
    ensures Fits(p, o, Star(b))
  {
    hide LoopFits, Len;
  }

  lemma LoopHas(code: seq<byte>, o: nat, x: seq<byte>)
    requires Has(code, o, LoopBytes(x))
    ensures Has(code, o, JumpCode(C_FAILURE_JUMP, |x| + 3)) && Has(code, o + 3, x)
    ensures Has(code, o + 3 + |x|, JumpCode(C_STAR_JUMP, -6 - |x|)) && o + 6 + |x| <= |Decode(code)|
  {
    hide Has, JumpCode;
    var a, c := JumpCode(C_FAILURE_JUMP, |x| + 3), JumpCode(C_STAR_JUMP, -6 - |x|);
    HasLength(code, o, a + x + c);
    HasSplit(code, o, a + x, c);
    HasSplit(code, o, a, x);
  }

  lemma {:induction false} LoopBytesFit(code: seq<byte>, o: nat, b: Re)
    requires Has(code, o, LoopBytes(Gen(b))) && Encodable(b) && Len(b) + 6 <= 32768
    ensures LoopFits(Decode(code), o, b) && o + 2 < |code| && code[o] == C_FAILURE_JUMP
      && TargetAt(code, o) == o + 6 + Len(b)
    decreases b, 2
  {
    hide *;
    GenIs(b);
    LoopHas(code, o, Gen(b));
    JumpAt(code, o, C_FAILURE_JUMP, Len(b) + 3);
    JumpDecodes(code, o, C_FAILURE_JUMP, Len(b) + 3);
    JumpAt(code, o + 3 + Len(b), C_STAR_JUMP, -6 - Len(b));
    GenFits(code, o + 3, b);
    LoopFitsIs(Decode(code), o, b);
  }

  lemma LoopFitsIs(p: Program, o: nat, b: Re)
    requires o + 6 + Len(b) <= |p| && p[o] == Fork(o + 3, o + 6 + Len(b)) && p[o + 3 + Len(b)] == StarJump(o)
      && Fits(p, o + 3, b)
    ensures LoopFits(p, o, b)
  {
    hide Fits, Len;
  }

  lemma {:induction false} PlusFits(code: seq<byte>, o: nat, b: Re)
    requires Has(code, o, Gen(Plus(b))) && Encodable(Plus(b))
    ensures Fits(Decode(code), o, Plus(b))
    decreases Plus(b), 0
  {
    hide *;
    GenIs(Plus(b));
    GenIs(b);
    EncodableParts(Plus(b));
    PlusHas(code, o, Gen(b));
    LoopBytesFit(code, o + 3, b);
    DummyAt(code, o);
    PlusFitsIs(Decode(code), o, b);
  }

  lemma PlusHas(code: seq<byte>, o: nat, x: seq<byte>)
    requires Has(code, o, PlusBytes(x))
    ensures Has(code, o, JumpCode(C_DUMMY_FAILURE_JUMP, 3)) && Has(code, o + 3, LoopBytes(x))
      && o + 9 + |x| <= |Decode(code)|
  {
    hide Has, JumpCode, LoopBytes;
    HasLength(code, o, JumpCode(C_DUMMY_FAILURE_JUMP, 3) + LoopBytes(x));
    HasSplit(code, o, JumpCode(C_DUMMY_FAILURE_JUMP, 3), LoopBytes(x));
  }

  lemma DummyAt(code: seq<byte>, o: nat)
    requires Has(code, o, JumpCode(C_DUMMY_FAILURE_JUMP, 3)) && o + 5 < |code| && code[o + 3] == C_FAILURE_JUMP
    ensures Decode(code)[o] == Dummy(o + 6, TargetAt(code, o + 3))
  {
    JumpDecodes(code, o, C_DUMMY_FAILURE_JUMP, 3);
  }

  lemma PlusFitsIs(p: Program, o: nat, b: Re)
    requires o + 9 + Len(b) <= |p| && p[o] == Dummy(o + 6, o + 9 + Len(b)) && LoopFits(p, o + 3, b)
    ensures Fits(p, o, Plus(b))
  {
    hide LoopFits, Len;
  }

  lemma {:induction false} GroupFits(code: seq<byte>, o: nat, g: byte, b: Re)
    requires Has(code, o, Gen(Group(g, b))) && Encodable(Group(g, b))
    ensures Fits(Decode(code), o, Group(g, b))
    decreases Group(g, b), 0
  {
    hide *;
    GenIs(Group(g, b));
    GenIs(b);
    EncodableParts(Group(g, b));
    if g == 0 {
      GroupIs(g, Gen(b));
      GenFits(code, o, b);
    } else {
      GroupHas(code, o, g, Gen(b));
      GenFits(code, o + 2, b);
      GroupShapeIs(Decode(code), o, g, Len(b));
    }
    GroupFitsIs(Decode(code), o, g, b);
  }

  lemma GroupHas(code: seq<byte>, o: nat, g: byte, x: seq<byte>)
    requires Has(code, o, GroupBytes(g, x)) && g != 0
    ensures Has(code, o + 2, x) && o + 4 + |x| <= |Decode(code)|
    ensures Decode(code)[o] == Mem(g, true, o + 2) && Decode(code)[o + 2 + |x|] == Mem(g, false, o + 4 + |x|)
  {
    hide Has, Decode;
    HasSplit(code, o, [C_START_MEMORY, g] + x, [C_END_MEMORY, g]);
    HasSplit(code, o, [C_START_MEMORY, g], x);
    MemAt(code, o, [C_START_MEMORY, g]);
    MemAt(code, o + 2 + |x|, [C_END_MEMORY, g]);
  }

  lemma GroupIs(g: byte, x: seq<byte>)
    ensures GroupBytes(g, x) == if g == 0 then x else [C_START_MEMORY, g] + x + [C_END_MEMORY, g]
  {
  }

  lemma MemAt(code: seq<byte>, o: nat, x: seq<byte>)
    requires Has(code, o, x) && |x| == 2 && (x[0] == C_START_MEMORY || x[0] == C_END_MEMORY)
    ensures o + 2 <= |code| && Decode(code)[o] == Mem(x[1], x[0] == C_START_MEMORY, o + 2)
  {
    HasByte(code, o, x, 0);
    HasByte(code, o, x, 1);
  }

  lemma GroupShapeIs(p: Program, o: nat, g: byte, n: nat)
    requires o + 4 + n <= |p| && p[o] == Mem(g, true, o + 2) && p[o + 2 + n] == Mem(g, false, o + 4 + n)
    ensures GroupShape(p, o, g, n)
  {
  }

  lemma GroupFitsIs(p: Program, o: nat, g: byte, b: Re)
    requires if g == 0 then Fits(p, o, b) else GroupShape(p, o, g, Len(b)) && Fits(p, o + 2, b)
    ensures Fits(p, o, Group(g, b))
  {
    hide GroupShape, Len, LoopFits, LeafShape;
  }

  /** The bytes that the compiler emits for re decode to the layout of re. */
  lemma CompileFits(re: Re)
    requires Encodable(re)
    ensures Compiled(Decode(Compile(re)), re)
  {
    hide Gen, Encodable, Fits;
    assert Compile(re)[0..Len(re)] == Gen(re);
    GenFits(Compile(re), 0, re);
  }
}
