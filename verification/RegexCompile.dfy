/** The pattern compiler of src/regexpr.c.  Its code grows in place: a jump is inserted in front of code
    that is there already, and the jumps behind alternatives are patched when their group ends.  The
    class holds the variables that the compiler's macros change. */
module RegexCompile {
  import opened RegexSyntax
  import opened RegexProgram
  import opened RegexCode
  import opened RegexParse
  import opened RegexLayout

  // ----- the macros -----

  /** PUT_ADDR. */
  method PutAddr(pattern: array<byte>, at: nat, addr: int)
    requires at + 2 <= pattern.Length
    modifies pattern
    ensures pattern[..] == old(pattern[..at]) + Disp(addr - at - 2) + old(pattern[at + 2..])
  {
    var d := Disp(addr - at - 2);
    pattern[at], pattern[at + 1] := d[0], d[1];
  }

  /** INSERT_JUMP: moves the code from p on up by three bytes and puts a jump there. */
  method InsertJump(pattern: array<byte>, used: nat, p: nat, op: byte, addr: int)
    requires p <= used && used + 3 <= pattern.Length
    modifies pattern
    ensures pattern[..used + 3] == old(pattern[..p]) + JumpCode(op, addr - p - 3) + old(pattern[p..used])
  {
    var a := used;
    while a > p
      invariant p <= a <= used
      invariant pattern[..a] == old(pattern[..a])
      invariant pattern[a + 3..used + 3] == old(pattern[a..used])
    {
      a := a - 1;
      pattern[a + 3] := pattern[a];
      assert old(pattern[a..used]) == [old(pattern[a])] + old(pattern[a + 1..used]);
    }
    assert pattern[..p] == old(pattern[..p]);
    pattern[p] := op;
    PutAddr(pattern, p + 1, addr);
  }

  /** ALLOC: makes room for `amount` more bytes. */
  method Alloc(pattern: array<byte>, used: nat, amount: nat) returns (pattern': array<byte>)
    requires used <= pattern.Length
    ensures used + amount <= pattern'.Length && pattern'[..used] == pattern[..used]
    ensures pattern' == pattern || fresh(pattern')
  {
    if used + amount <= pattern.Length {
      return pattern;
    }
    pattern' := new byte[pattern.Length + 256 + amount];
    for k := 0 to used
      invariant pattern'[..k] == pattern[..k]
    {
      pattern'[k] := pattern[k];
    }
  }

  /** SETBIT on the 32 bytes of a set. */
  method SetBitAt(pattern: array<byte>, offset: nat, c: byte)
    requires offset + 32 <= pattern.Length
    modifies pattern
    ensures Members(pattern[offset..offset + 32]) == Members(old(pattern[offset..offset + 32])) + {c}
    ensures pattern[..offset] == old(pattern[..offset]) && pattern[offset + 32..] == old(pattern[offset + 32..])
  {
    ghost var bits := pattern[offset..offset + 32];
    AddBit(bits, c);
    assert pattern[offset + c / 8] == bits[c / 8];
    pattern[offset + c / 8] := SetBit(pattern[offset + c / 8], c % 8);
    assert pattern[offset..offset + 32] == bits[c / 8 := SetBit(bits[c / 8], c % 8)];
  }

  lemma AddBit(bits: seq<byte>, c: byte)
    requires |bits| == 32
    ensures SetBit(bits[c / 8], c % 8) < 256
    ensures Members(bits[c / 8 := SetBit(bits[c / 8], c % 8)]) == Members(bits) + {c}
  {
    Pow2Eight();
    SetBitBounded(bits[c / 8], c % 8, 8);
    var bits': seq<byte> := bits[c / 8 := SetBit(bits[c / 8], c % 8)];
    forall d: byte ensures InBits(bits', d) <==> InBits(bits, d) || d == c {
      SetBitSets(bits[c / 8], c % 8, d % 8);
    }
    assert Members(bits') == Members(bits) + {c};
  }

  /** `^= 0xff` on the 32 bytes of a set. */
  method Complement(pattern: array<byte>, offset: nat)
    requires offset + 32 <= pattern.Length
    modifies pattern
    ensures Members(pattern[offset..offset + 32]) == AllBytes() - Members(old(pattern[offset..offset + 32]))
    ensures pattern[..offset] == old(pattern[..offset]) && pattern[offset + 32..] == old(pattern[offset + 32..])
  {
    ghost var bits := pattern[offset..offset + 32];
    for a := 0 to 32
      invariant forall k :: 0 <= k < 32 ==> pattern[offset + k] == if k < a then 255 - bits[k] else bits[k]
      invariant pattern[..offset] == old(pattern[..offset]) && pattern[offset + 32..] == old(pattern[offset + 32..])
    {
      pattern[offset + a] := 255 - pattern[offset + a];
    }
    FlipBits(bits, pattern[offset..offset + 32]);
  }

  lemma FlipBits(bits: seq<byte>, bits': seq<byte>)
    requires |bits| == |bits'| == 32 && forall k :: 0 <= k < 32 ==> bits'[k] == 255 - bits[k]
    ensures Members(bits') == AllBytes() - Members(bits)
  {
    Pow2Eight();
    forall d: byte ensures InBits(bits', d) <==> !InBits(bits, d) { ComplementFlips(bits[d / 8], 8, d % 8); }
    assert Members(bits') == AllBytes() - Members(bits);
  }

  lemma NoBits(bits: seq<byte>)
    requires |bits| == 32 && forall k :: 0 <= k < 32 ==> bits[k] == 0
    ensures Members(bits) == {}
  {
    forall d: byte ensures !InBits(bits, d) { NoBit(d % 8); }
  }

  lemma {:induction false} NoBit(k: nat)
    ensures !Bit(0, k)
  {
    if k > 0 { NoBit(k - 1); }
  }

  /** The case Ropenset behind its opening: reads the set at pos into the 32 bytes at offset. */
  method ReadSetInto(pattern: array<byte>, offset: nat, regex: seq<byte>, pos: nat) returns (ok: bool, pos': nat)
    requires offset + 32 <= pattern.Length && Members(pattern[offset..offset + 32]) == {} && pos <= |regex|
    modifies pattern
    ensures ok <==> ReadSet(regex, pos).SetOf?
    ensures ok ==> ReadSet(regex, pos) == SetOf(Members(pattern[offset..offset + 32]), pos') && pos < pos' <= |regex|
    ensures pattern[..offset] == old(pattern[..offset]) && pattern[offset + 32..] == old(pattern[offset + 32..])
  {
    hide Members, Bitmap, Span;
    pos' := pos;
    if pos' >= |regex| { return false, pos'; }
    var ch := regex[pos'];
    pos' := pos' + 1;
    var complement := ch == CARET;
    if complement {
      if pos' >= |regex| { return false, pos'; }
      ch := regex[pos'];
      pos' := pos' + 1;
    }
    ghost var whole := ReadMembers(regex, pos' - 1, -1, false, true, {});
    var prev: int, range, firstchar := -1, false, true;
    while ch != CLOSESET || firstchar
      invariant pos < pos' <= |regex| && ch == regex[pos' - 1] && -1 <= prev < 256 && (range ==> prev >= 0)
      invariant ReadMembers(regex, pos' - 1, prev, range, firstchar, Members(pattern[offset..offset + 32])) == whole
      invariant pattern[..offset] == old(pattern[..offset]) && pattern[offset + 32..] == old(pattern[offset + 32..])
      decreases |regex| - pos'
    {
      firstchar := false;
      if range {
        SetSpan(pattern, offset, prev, ch);
        prev, range := -1, false;
      } else if prev != -1 && ch == DASH {
        range := true;
      } else {
        SetBitAt(pattern, offset, ch);
        prev := ch;
      }
      if pos' >= |regex| { return false, pos'; }
      ch := regex[pos'];
      pos' := pos' + 1;
    }
    if range {
      SetBitAt(pattern, offset, DASH);
    }
    if complement {
      Complement(pattern, offset);
    }
    return true, pos';
  }

  /** The loop that sets the bits of a range. */
  method SetSpan(pattern: array<byte>, offset: nat, lo: nat, hi: byte)
    requires offset + 32 <= pattern.Length && lo < 256
    modifies pattern
    ensures Members(pattern[offset..offset + 32]) == Members(old(pattern[offset..offset + 32])) + Span(lo, hi)
    ensures pattern[..offset] == old(pattern[..offset]) && pattern[offset + 32..] == old(pattern[offset + 32..])
  {
    hide Members, Bitmap;
    ghost var cs := Members(pattern[offset..offset + 32]);
    var a := lo;
    assert Span(lo, lo - 1) == {};
    while a <= hi
      invariant lo <= a && (lo <= hi ==> a <= hi + 1) && (lo > hi ==> a == lo)
      invariant Members(pattern[offset..offset + 32]) == cs + Span(lo, a - 1)
      invariant pattern[..offset] == old(pattern[..offset]) && pattern[offset + 32..] == old(pattern[offset + 32..])
      decreases 256 - a
    {
      var c: byte := a;
      SetBitAt(pattern, offset, c);
      assert Span(lo, a - 1) + {c} == Span(lo, a);
      a := a + 1;
    }
    assert Span(lo, a - 1) == Span(lo, hi);
  }

  // ----- registers of groups -----

  /** The first nine groups get registers, which are held in the order in which the groups are open. */
  ghost predicate RegsOk(st: State, regs: seq<byte>) {
    && |regs| <= |st.outer| && |regs| < st.next <= RE_NREGS
    && (|regs| < |st.outer| ==> st.next == RE_NREGS)
    && Frames(st)[0].reg == 0
    && (forall k :: 0 <= k < |regs| ==> regs[k] != 0)
    && forall k :: 1 <= k <= |st.outer| ==> Frames(st)[k].reg == if k <= |regs| then regs[k - 1] else 0
  }

  lemma RegsSame(st: State, regs: seq<byte>, st': State)
    requires RegsOk(st, regs) && st'.outer == st.outer && st'.cur.reg == st.cur.reg && st'.next == st.next
    ensures RegsOk(st', regs)
  {
    forall k | 0 <= k <= |st.outer| ensures Frames(st')[k].reg == Frames(st)[k].reg { }
  }

  lemma RegsOpen(st: State, regs: seq<byte>, st': State)
    requires RegsOk(st, regs) && |st'.outer| == |st.outer| + 1 && st'.outer[..|st.outer|] == st.outer
    requires st'.outer[|st.outer|].reg == st.cur.reg
    requires if st.next < RE_NREGS then st'.next == st.next + 1 && st'.cur.reg == st.next
             else st'.next == st.next && st'.cur.reg == 0
    ensures |regs| < RE_NREGS && RegsOk(st', if st.next < RE_NREGS then regs + [st.next] else regs)
  {
    var regs' := if st.next < RE_NREGS then regs + [st.next as byte] else regs;
    forall k | 1 <= k <= |st'.outer| ensures Frames(st')[k].reg == if k <= |regs'| then regs'[k - 1] else 0 {
      if k <= |st.outer| { assert Frames(st')[k].reg == Frames(st)[k].reg; }
    }
    assert Frames(st')[0].reg == Frames(st)[0].reg;
  }

  lemma RegsClose(st: State, regs: seq<byte>, st': State)
    requires RegsOk(st, regs) && st.outer != [] && st'.outer == st.outer[..|st.outer| - 1] && st'.next == st.next
    requires st'.cur.reg == st.outer[|st.outer| - 1].reg
    ensures var d := |st.outer| - 1;
            if d < |regs| then |regs| == d + 1 && st.cur.reg == regs[d] != 0 && RegsOk(st', regs[..d])
            else st.cur.reg == 0 && RegsOk(st', regs)
  {
    assert Frames(st)[|st.outer|] == st.cur;
    forall k | 0 <= k < |st.outer| ensures Frames(st')[k].reg == Frames(st)[k].reg { }
  }

  // ----- settling at a level -----

  /** The state once the pending jumps at or above a level have been patched. */
  function Settled(st: State, level: nat): State {
    st.(cur := if level >= 4 then st.cur else if level >= 2 then Merge(st.cur) else Reduce(st.cur))
  }

  function LevelOf(tok: Token): nat {
    match tok
    case Bar => 2
    case Caret => 3
    case Dollar(_) => 3
    case Close => 1
    case _ => 4
  }

  lemma SnocEps(r: Re)
    ensures Snoc(r, Eps) == r
  {
  }

  /** Nothing is to be settled when the level does not fall. */
  lemma SettledSame(st: State, level: nat, L: nat)
    requires L <= level <= 4 && (L < 4 ==> st.cur.last.Eps?) && (L < 2 ==> st.cur.alts == [])
    ensures Settled(st, level) == st
  {
    hide Snoc;
    SnocEps(st.cur.pre);
  }

  /** Feeding a token to a state is the same after it has settled at the token's level. */
  lemma FeedSettled(st: State, tok: Token)
    ensures Feed(Settled(st, LevelOf(tok)), tok) == Feed(st, tok)
  {
    hide Snoc, Build, Pending;
    var f := st.cur;
    SnocEps(Snoc(f.pre, f.last));
    if tok.Close? { BuildReduce(f); }
    if tok.Bar? { PendingMerge(st.outer, f); }
  }

  lemma BuildReduce(f: Frame)
    ensures Build(Reduce(f)) == Build(f)
  {
    hide Snoc;
    SnocEps(Build(f));
  }

  lemma PendingMerge(fs: seq<Frame>, f: Frame)
    ensures Pending(fs + [Merge(f)]) == Pending(fs + [f])
  {
    hide Pending, Snoc, Jumps, FramesCode, FrameCode, FrameJumps, HeadCode;
    FramesSnoc(fs, f);
    FramesSnoc(fs, Merge(f));
  }

  lemma SettledParts(st: State, level: nat)
    ensures var t := Settled(st, level);
            t.outer == st.outer && t.cur.reg == st.cur.reg && t.next == st.next && t.begin == st.begin
    ensures 2 <= level < 4 ==> Settled(st, level) == st.(cur := Merge(st.cur))
    ensures level < 2 ==> Settled(st, level) == st.(cur := Reduce(st.cur))
    ensures level >= 4 ==> Settled(st, level) == st
  {
    hide Build, Snoc;
  }

  lemma LevelBounds(st: State, code: seq<byte>, starts: seq<int>, jumps: seq<int>, L: nat)
    requires Laid(st, code, starts, jumps, L)
    ensures L <= 4 && 5 * |st.outer| + 5 <= |starts| && |jumps| <= MAX_NESTING
    ensures (L < 4 ==> st.cur.last.Eps?) && (L < 2 ==> st.cur.alts == [])
  {
    hide OuterOk, FramesCode, Jumps, HeadCode, AltsCode, BeforeLast;
  }

  lemma EmptyLen(r: Re)
    ensures r.Eps? ==> Len(r) == 0
  {
  }

  // ----- patching the pending jumps of the current frame -----

  /** Some of the pending jumps of the current frame of st have been patched: its later alternatives
      are code already, and g is what is left. */
  ghost predicate Patching(st: State, code0: seq<byte>, starts: seq<int>, L: nat, g: Frame, code: seq<byte>,
          jumps: seq<int>) {
    && g.reg == st.cur.reg && g.last.Eps? && Build(g) == Build(st.cur)
    && code == FramesCode(st.outer + [g]) && jumps == Jumps(st.outer + [g]) && |code| == |code0|
  }

  lemma MergedJumps(st: State, code: seq<byte>, starts: seq<int>, jumps: seq<int>, L: nat)
    requires Laid(st, code, starts, jumps, L)
    ensures Patching(st, code, starts, L, Merge(st.cur), code, jumps)
  {
    hide *;
    LaidParts(st, code, starts, jumps, L);
    MergeFrame(st.cur);
    MergeBuild(st.cur);
    FramesSnoc(st.outer, st.cur);
    FramesSnoc(st.outer, Merge(st.cur));
    PatchingIntro(st, code, starts, L, Merge(st.cur), code, jumps);
  }

  lemma MergeBuild(f: Frame)
    ensures Build(Merge(f)) == Build(f)
  {
    hide Snoc;
    SnocEps(Snoc(f.pre, f.last));
  }

  lemma PatchingIntro(st: State, code0: seq<byte>, starts: seq<int>, L: nat, g: Frame, code: seq<byte>, jumps: seq<int>)
    requires g.reg == st.cur.reg && g.last.Eps? && Build(g) == Build(st.cur)
    requires code == FramesCode(st.outer + [g]) && jumps == Jumps(st.outer + [g]) && |code| == |code0|
    ensures Patching(st, code0, starts, L, g, code, jumps)
  {
    hide Build, FramesCode, Jumps;
  }

  lemma PatchingParts(st: State, code0: seq<byte>, starts: seq<int>, L: nat, g: Frame, code: seq<byte>, jumps: seq<int>)
    requires Patching(st, code0, starts, L, g, code, jumps)
    ensures g.reg == st.cur.reg && g.last.Eps? && Build(g) == Build(st.cur)
    ensures code == FramesCode(st.outer + [g]) && jumps == Jumps(st.outer + [g]) && |code| == |code0|
  {
    hide Build, FramesCode, Jumps;
  }

  /** Levels 0 and 1 of a frame begin where the frame begins. */
  lemma FrameStart(st: State, code: seq<byte>, starts: seq<int>, jumps: seq<int>, L: nat, level: nat)
    requires Laid(st, code, starts, jumps, L) && level < 2 && level <= L
    ensures 5 * |st.outer| + level < |starts|
      && starts[5 * |st.outer| + level] == |FramesCode(st.outer)| + |HeadCode(st.cur.reg)|
  {
    hide OuterOk, FramesCode, Jumps, HeadCode, AltsCode, BeforeLast;
  }

  lemma PatchingStep(st: State, code0: seq<byte>, starts: seq<int>, jumps0: seq<int>, L: nat, level: nat, g: Frame,
          code: seq<byte>, jumps: seq<int>)
    requires Laid(st, code0, starts, jumps0, L) && level < L
    requires Patching(st, code0, starts, L, g, code, jumps)
    requires level >= 2 ==> jumps == jumps0 && (jumps0 != [] ==> jumps0[|jumps0| - 1] < starts[5 * |st.outer| + level])
    requires 5 * |st.outer| + level < |starts| && jumps != [] && jumps[|jumps| - 1] >= starts[5 * |st.outer| + level]
    ensures level < 2 && g.alts != [] && 0 <= jumps[|jumps| - 1] && jumps[|jumps| - 1] + 2 <= |code|
    ensures var j := jumps[|jumps| - 1];
            Patching(st, code0, starts, L, Fold1(g), code[..j] + Disp(|code| - j - 2) + code[j + 2..],
              jumps[..|jumps| - 1])
  {
    hide *;
    PatchingParts(st, code0, starts, L, g, code, jumps);
    FrameStart(st, code0, starts, jumps0, L, level);
    TopJump(st.outer, g, jumps, starts[5 * |st.outer| + level]);
    PatchLast(st.outer, g, code, jumps[|jumps| - 1]);
    Fold1Build(g);
    Fold1Is(g);
    var j := jumps[|jumps| - 1];
    PutKeepsLength(code, j);
    PatchingIntro(st, code0, starts, L, Fold1(g), code[..j] + Disp(|code| - j - 2) + code[j + 2..],
      jumps[..|jumps| - 1]);
  }

  lemma PutKeepsLength(code: seq<byte>, j: nat)
    requires j + 2 <= |code|
    ensures |code[..j] + Disp(|code| - j - 2) + code[j + 2..]| == |code|
  {
  }

  lemma PatchingDone(st: State, code0: seq<byte>, starts: seq<int>, jumps0: seq<int>, L: nat, level: nat, g: Frame,
          code: seq<byte>, jumps: seq<int>)
    requires Laid(st, code0, starts, jumps0, L) && level < L
    requires Patching(st, code0, starts, L, g, code, jumps) && |jumps| <= |jumps0|
    requires level >= 2 ==> g == Merge(st.cur) && code == code0 && jumps == jumps0
    requires 5 * |st.outer| + level < |starts| && (jumps != [] ==> jumps[|jumps| - 1] < starts[5 * |st.outer| + level])
    ensures Laid(Settled(st, level), code, starts, jumps, level)
  {
    hide *;
    SettledParts(st, level);
    LevelBounds(st, code0, starts, jumps0, L);
    if level >= 2 {
      Lower(st, code0, starts, jumps0, L, level);
    } else {
      PatchingParts(st, code0, starts, L, g, code, jumps);
      FrameStart(st, code0, starts, jumps0, L, level);
      TopJump(st.outer, g, jumps, starts[5 * |st.outer| + level]);
      Patched(st, starts, code0, jumps0, L, g, code, jumps, level);
    }
  }

  /** Patches the pending jumps at or behind `limit`, where a level of the current frame begins. */
  method PatchPending(pattern: array<byte>, offset: nat, futureJumps: array<int>, numJumps: nat, limit: int,
          ghost level: nat,
                      ghost st: State, ghost starts: seq<int>, ghost L: nat)
      returns (n: nat)
    requires offset <= pattern.Length && numJumps <= futureJumps.Length && pattern as object != futureJumps
    requires Laid(st, pattern[..offset], starts, futureJumps[..numJumps], L) && level < L
    requires 5 * |st.outer| + level < |starts| && limit == starts[5 * |st.outer| + level]
    modifies pattern
    ensures n <= numJumps && Laid(Settled(st, level), pattern[..offset], starts, futureJumps[..n], level)
  {
    hide *;
    ghost var code, jumps := pattern[..offset], futureJumps[..numJumps];
    if level >= 2 {
      Lower(st, code, starts, jumps, L, level);
    }
    ghost var g := Merge(st.cur);
    MergedJumps(st, code, starts, jumps, L);
    n := numJumps;
    assert jumps[..n] == jumps;
    while n > 0 && futureJumps[n - 1] >= limit
      invariant n <= numJumps && futureJumps[..numJumps] == jumps
      invariant Patching(st, code, starts, L, g, pattern[..offset], jumps[..n])
      invariant level >= 2 ==> g == Merge(st.cur) && pattern[..offset] == code && n == numJumps
    {
      ghost var before, j := pattern[..offset], futureJumps[n - 1];
      assert jumps[..n][n - 1] == j && jumps[..n][..n - 1] == jumps[..n - 1];
      PatchingStep(st, code, starts, jumps, L, level, g, before, jumps[..n]);
      PutAddr(pattern, futureJumps[n - 1], offset);
      assert pattern[..offset] == before[..j] + Disp(offset - j - 2) + before[j + 2..];
      n := n - 1;
      g := Fold1(g);
    }
    assert n > 0 ==> jumps[..n][n - 1] == futureJumps[n - 1];
    assert futureJumps[..n] == jumps[..n];
    PatchingDone(st, code, starts, jumps, L, level, g, pattern[..offset], jumps[..n]);
  }

  /** The items whose code is an opcode and at most one argument. */
  predicate IsLeaf(re: Re) {
    (re.Atom? && !re.cl.InSet?) || re.Assert? || re.Backref?
  }

  lemma SetGen(bits: seq<byte>)
    requires |bits| == 32 && Bitmap(Members(bits)) == bits
    ensures Gen(Atom(InSet(Members(bits)))) == [C_SET] + bits
  {
    hide Bitmap, Members;
  }

  /** Inserts the jumps of a postfix operator whose operand lies from s on. */
  method PostfixJumps(pattern: array<byte>, used: nat, s: nat, op: byte)
    requires s <= used && used + 9 <= pattern.Length && (op == STAR || op == PLUS || op == QUESTION)
    modifies pattern
    ensures pattern[..used + (if op == QUESTION then 3 else if op == STAR then 6 else 9)]
            == old(pattern[..s]) + PostfixCode(op, old(pattern[s..used]))
  {
    hide *;
    ghost var x, y := pattern[..s], pattern[s..used];
    PostfixBytes(y);
    PostfixIs(y);
    if op == QUESTION {
      InsertJump(pattern, used, s, C_FAILURE_JUMP, used + 3);
    } else {
      InsertJump(pattern, used, s, C_FAILURE_JUMP, used + 6);
      InsertJump(pattern, used + 3, used + 3, C_STAR_JUMP, s);
      ghost var loop := LoopBytes(y);
      assert pattern[..used + 6] == x + loop;
      assert pattern[..s] == pattern[..used + 6][..s] == x;
      assert pattern[s..used + 6] == pattern[..used + 6][s..] == loop;
      if op == PLUS {
        InsertJump(pattern, used + 6, s, C_DUMMY_FAILURE_JUMP, s + 6);
      }
    }
  }

  lemma PostfixBytes(x: seq<byte>)
    ensures OptBytes(x) == JumpCode(C_FAILURE_JUMP, |x|) + x
    ensures LoopBytes(x) == JumpCode(C_FAILURE_JUMP, |x| + 3) + x + JumpCode(C_STAR_JUMP, -6 - |x|)
    ensures PlusBytes(x) == JumpCode(C_DUMMY_FAILURE_JUMP, 3) + LoopBytes(x)
  {
    hide JumpCode;
  }

  /** Inserts the failure jump in front of the alternative that lies from s on, and stores the jump
      behind it. */
  method BarJumps(pattern: array<byte>, used: nat, s: nat)
    requires s <= used && used + 6 <= pattern.Length
    modifies pattern
    ensures pattern[..used + 6] == old(pattern[..s]) + JumpCode(C_FAILURE_JUMP, used - s + 3) + old(pattern[s..used])
      + [C_JUMP, 0, 0]
  {
    hide *;
    InsertJump(pattern, used, s, C_FAILURE_JUMP, used + 6);
    ghost var code := pattern[..used + 3];
    pattern[used + 3], pattern[used + 4], pattern[used + 5] := C_JUMP, 0, 0;
    assert pattern[..used + 6] == code + [C_JUMP, 0, 0];
  }

  /** There is room for a hundred pending jumps. */
  lemma BarFed(st: State, code: seq<byte>, starts: seq<int>, jumps: seq<int>)
    requires Laid(st, code, starts, jumps, 2)
    ensures |jumps| >= MAX_NESTING ==> Feed(st, Bar) == Err(TooComplex)
    ensures |jumps| < MAX_NESTING ==>
      Feed(st, Bar) == Ok(st.(cur := Frame(st.cur.reg, st.cur.alts + [Snoc(st.cur.pre, st.cur.last)], Eps, Eps),
      begin := true))
  {
    hide OuterOk, FramesCode, Jumps, HeadCode, AltsCode, BeforeLast, Snoc, Pending, LevelsOk;
    JumpsBelow(Frames(st));
  }

  lemma BarStart(st: State, code: seq<byte>, starts: seq<int>, jumps: seq<int>)
    requires Laid(st, code, starts, jumps, 2)
    ensures 5 * |st.outer| + 2 < |starts| && 0 <= starts[5 * |st.outer| + 2] <= |code|
  {
    hide *;
    LaidParts(st, code, starts, jumps, 2);
    StartOfAlternative(st.cur, starts, 5 * |st.outer|, |FramesCode(st.outer)|);
    FramesSnoc(st.outer, st.cur);
    FrameLength(st.cur);
  }

  lemma StartOfAlternative(f: Frame, starts: seq<int>, b: nat, o: nat)
    requires LevelsOk(f, starts, b, o, 2)
    ensures b + 5 <= |starts| && starts[b + 2] == o + |HeadCode(f.reg)| + |AltsCode(f.alts)|
  {
    hide HeadCode, AltsCode, BeforeLast;
  }

  lemma NewSet(code: seq<byte>, code': seq<byte>)
    requires code' == code + ([C_SET] + seq(32, k => 0))
    ensures code'[..|code'| - 32] == code + [C_SET] && Members(code'[|code'| - 32..]) == {}
  {
    NoBits(code'[|code'| - 32..]);
    hide Members;
  }

  lemma Regroup(x: seq<byte>, y: seq<byte>, z: seq<byte>)
    ensures x + y + z == x + (y + z)
  {
  }

  lemma OpenFed(st: State)
    ensures |st.outer| >= MAX_NESTING - 1 ==> Feed(st, Open) == Err(TooComplex)
    ensures |st.outer| < MAX_NESTING - 1 ==>
      Feed(st, Open) == Ok(State(st.outer + [Merge(st.cur)],
        Frame(if st.next < RE_NREGS then st.next else 0, [], Eps, Eps),
                                 if st.next < RE_NREGS then st.next + 1 else st.next, true))
    ensures Merge(st.cur).reg == st.cur.reg
  {
    hide Snoc;
  }

  lemma RegBounds(st: State, regs: seq<byte>)
    requires RegsOk(st, regs)
    ensures |regs| < RE_NREGS == 10 && 1 <= st.next <= 10 && HeadCode(0) == [] && MAX_NESTING == 100
    ensures st.next < RE_NREGS ==> HeadCode(st.next) == [C_START_MEMORY, st.next]
  {
  }

  lemma CloseFed(st: State)
    requires st.cur.last.Eps? && st.cur.alts == []
    ensures st.outer == [] ==> Feed(st, Close) == Err(Parenthesis)
    ensures st.outer != [] ==>
      Feed(st, Close) == Ok(State(st.outer[..|st.outer| - 1],
        st.outer[|st.outer| - 1].(last := Group(st.cur.reg, st.cur.pre)), st.next, false))
  {
    SnocEps(st.cur.pre);
    hide Snoc;
  }

  // ----- one operator of the pattern -----

  /** What the first byte of an operator says about it. */
  lemma ReadAt(regex: seq<byte>, pos: nat)
    requires pos < |regex|
    ensures var ch, (tok, next) := regex[pos], TokenAt(regex, pos);
            && (ch == BACKSLASH && pos + 1 >= |regex| ==> tok == Wrong(Premature))
            && (ch == BACKSLASH && pos + 1 < |regex| ==> tok == Quoted(regex[pos + 1]) && next == pos + 2)
            && (ch == OPENSET ==> if ReadSet(regex, pos + 1).Unclosed? then tok == Wrong(Premature)
                                  else
                                    && tok == Item(Atom(InSet(ReadSet(regex, pos + 1).cs)))
                                    && next == ReadSet(regex, pos + 1).pos)
            && (ch != BACKSLASH && ch != OPENSET ==> tok == PlainToken(regex, pos) && next == pos + 1)
  {
    hide ReadSet, Quoted, EndsHere;
  }

  /** The operator that a character stands for which is neither `\` nor `[`. */
  function PlainToken(regex: seq<byte>, pos: nat): Token
    requires pos < |regex|
  {
    var ch := regex[pos];
    if ch == STAR || ch == PLUS || ch == QUESTION then Postfix(ch)
    else if ch == CARET then Caret
    else if ch == DOLLAR then Dollar(EndsHere(regex, pos + 1))
    else if ch == DOT then Item(Atom(AnyChar))
    else Item(Atom(Exact(ch)))
  }

  lemma Levels(tok: Token)
    ensures LevelOf(tok) == if tok.Bar? then 2 else if tok.Caret? || tok.Dollar? then 3 else if tok.Close? then 1 else 4
  {
  }

  lemma FeedIs(st: State, tok: Token)
    ensures tok.Item? ==> Feed(st, tok) == Ok(st.(cur := Shift(st.cur, tok.leaf), begin := false))
    ensures tok.Caret? ==>
      Feed(st, tok) ==
      Ok(st.(cur := Merge(Shift(st.cur, if st.begin then Assert(Bol) else Atom(Exact(CARET)))), begin := false))
    ensures tok.Dollar? ==>
      Feed(st, tok) ==
      Ok(st.(cur := Merge(Shift(st.cur, if tok.last then Assert(Eol) else Atom(Exact(DOLLAR)))), begin := false))
    ensures tok.Postfix? ==>
      Feed(st, tok) ==
      Ok(st.(cur := if st.begin then Shift(st.cur, Atom(Exact(tok.op))) else Apply(st.cur, tok.op), begin := false))
    ensures tok.Wrong? ==> Feed(st, tok) == Err(tok.error)
    ensures forall leaf :: IsLeaf(leaf) <==> (leaf.Atom? && !leaf.cl.InSet?) || leaf.Assert? || leaf.Backref?
  {
    hide Shift, Merge, Apply;
  }

  lemma SetFed(st: State, regex: seq<byte>, pos: nat)
    requires pos <= |regex|
    ensures ReadSet(regex, pos).Unclosed? ==> Feed(st, Wrong(Premature)) == Err(Premature)
    ensures ReadSet(regex, pos).SetOf? ==>
      var leaf := Atom(InSet(ReadSet(regex, pos).cs));
      Feed(st, Item(leaf)) == Ok(st.(cur := Shift(st.cur, leaf), begin := false))
  {
    hide ReadSet, Shift;
  }

  lemma WrongFed(st: State, e: CompileError)
    ensures Feed(st, Wrong(e)) == Err(e)
  {
  }

  lemma QuotedLeaf(c: byte)
    ensures Quoted(c).Item? ==> IsLeaf(Quoted(c).leaf)
    ensures !Quoted(c).Postfix?
  {
  }

  lemma PlainLeaf(regex: seq<byte>, pos: nat)
    requires pos < |regex|
    ensures var tok := PlainToken(regex, pos);
            && (tok.Item? ==> IsLeaf(tok.leaf))
              && (tok.Postfix? ==> tok.op == STAR || tok.op == PLUS || tok.op == QUESTION)
  {
    hide EndsHere;
  }

  lemma ReduceIs(f: Frame)
    ensures Reduce(f).alts == [] && Reduce(f).last.Eps? && Reduce(f).pre == Build(f)
  {
    hide Build;
  }

  lemma OutermostReg(st: State, regs: seq<byte>)
    requires RegsOk(st, regs) && st.outer == []
    ensures st.cur.reg == 0
  {
  }

  lemma CompileIs(re: Re)
    ensures RegexCode.Compile(re) == Gen(re) + [C_END]
  {
    hide Gen;
  }

  // ----- the compiler -----

  class Compiler {
    var pattern: array<byte>
    var offset: nat
    const starts: array<int>
    var startsBase: nat
    const futureJumps: array<int>
    var numJumps: nat
    var currentLevel: nat
    var nextRegister: nat
    var parenDepth: nat
    const openRegisters: array<byte>
    var numOpen: nat
    var beginning: bool
    ghost var st: State

    ghost predicate Shape()
      reads this
    {
      && offset <= pattern.Length && starts.Length == 5 * MAX_NESTING
      && futureJumps.Length == MAX_NESTING && numJumps <= MAX_NESTING
      && openRegisters.Length == RE_NREGS && numOpen <= RE_NREGS
      && pattern as object != starts && pattern as object != futureJumps && pattern as object != openRegisters
      && starts as object != futureJumps && starts as object != openRegisters && futureJumps as object != openRegisters
    }

    /** The variables hold the code and the book-keeping of the parser's state. */
    ghost predicate Valid()
      reads this, pattern, starts, futureJumps, openRegisters
    {
      && Shape()
      && startsBase == 5 * |st.outer| && parenDepth == |st.outer|
      && beginning == st.begin && nextRegister == st.next
      && RegsOk(st, openRegisters[..numOpen])
      && Laid(st, pattern[..offset], starts[..], futureJumps[..numJumps], currentLevel)
    }

    constructor ()
      ensures Valid() && st == Start() && currentLevel == 0
      ensures fresh(pattern) && fresh(starts) && fresh(futureJumps) && fresh(openRegisters)
    {
      pattern := new byte[256];
      offset := 0;
      starts := new int[5 * MAX_NESTING];
      startsBase := 0;
      futureJumps := new int[MAX_NESTING];
      numJumps := 0;
      currentLevel := 0;
      nextRegister := 1;
      parenDepth := 0;
      openRegisters := new byte[RE_NREGS];
      numOpen := 0;
      beginning := true;
      st := Start();
      new;
      starts[0] := 0;
      hide Laid;
      LaidStart(starts[..]);
      assert pattern[..0] == [] && futureJumps[..0] == [];
    }

    /** ALLOC and STORE: the bytes go to the end of the code. */
    method Store(bytes: seq<byte>)
      requires Shape()
      modifies `pattern, `offset, pattern
      ensures Shape() && offset == old(offset) + |bytes|
      ensures pattern[..offset] == old(pattern[..offset]) + bytes
      ensures pattern == old(pattern) || fresh(pattern)
    {
      pattern := Alloc(pattern, offset, |bytes|);
      ghost var front := pattern[..offset];
      for k := 0 to |bytes|
        modifies `offset, pattern
        invariant Shape() && offset == old(offset) + k && offset + (|bytes| - k) <= pattern.Length
        invariant pattern[..offset] == front + bytes[..k]
      {
        pattern[offset] := bytes[k];
        offset := offset + 1;
      }
    }

    /** SET_LEVEL_START. */
    method SetLevelStart()
      requires Shape() && startsBase + currentLevel < starts.Length
      modifies starts
      ensures starts[..] == old(starts[..])[startsBase + currentLevel := offset]
    {
      starts[startsBase + currentLevel] := offset;
    }

    /** On the way up the new levels start here. */
    method RaiseLevel(level: nat)
      requires Valid() && currentLevel < level <= 4 && (currentLevel < 2 ==> st.cur.pre.Eps?)
      modifies `currentLevel, starts
      ensures Valid() && currentLevel == level && st == Settled(st, level)
    {
      hide Laid, RegsOk, Settled, Frames;
      ghost var code, levels, jumps, L := pattern[..offset], starts[..], futureJumps[..numJumps], currentLevel;
      LevelBounds(st, code, levels, jumps, L);
      while currentLevel < level
        modifies `currentLevel, starts
        invariant L <= currentLevel <= level
        invariant forall k :: 0 <= k < starts.Length ==>
          starts[k] == if startsBase + L < k <= startsBase + currentLevel then offset else levels[k]
      {
        currentLevel := currentLevel + 1;
        SetLevelStart();
      }
      EmptyLen(st.cur.pre);
      Raise(st, code, levels, jumps, L, starts[..], level);
      SettledSame(st, level, L);
    }

    /** On the way down the pending jumps of what has come to its end are patched. */
    method LowerLevel(level: nat)
      requires Valid() && level < currentLevel
      modifies `currentLevel, `numJumps, `st, pattern
      ensures Valid() && currentLevel == level && st == Settled(old(st), level)
    {
      hide *;
      MeansValid();
      ghost var code, regs, L := pattern[..offset], openRegisters[..numOpen], currentLevel;
      LevelBounds(st, code, starts[..], futureJumps[..numJumps], L);
      currentLevel := level;
      numJumps := PatchPending(pattern, offset, futureJumps, numJumps, starts[startsBase + currentLevel], level, st,
        starts[..], L);
      SettledParts(st, level);
      RegsSame(st, regs, Settled(st, level));
      st := Settled(st, level);
      MeansValid();
    }

    /** Goes to the level of the next operator. */
    method AdjustLevel(level: nat)
      requires Valid() && level <= 4 && (currentLevel < 2 ==> st.cur.pre.Eps?)
      modifies `currentLevel, `numJumps, `st, starts, pattern
      ensures Valid() && currentLevel == level && st == Settled(old(st), level)
    {
      hide Laid, RegsOk, Settled, Frames;
      if level > currentLevel {
        RaiseLevel(level);
      } else if level < currentLevel {
        LowerLevel(level);
      } else {
        LevelBounds(st, pattern[..offset], starts[..], futureJumps[..numJumps], currentLevel);
        SettledSame(st, level, level);
      }
    }

    /** What the cases of the big switch that only store code do. */
    method StoreLeaf(leaf: Re)
      requires Shape() && IsLeaf(leaf)
      modifies `pattern, `offset, pattern
      ensures Shape() && pattern[..offset] == old(pattern[..offset]) + Gen(leaf)
      ensures pattern == old(pattern) || fresh(pattern)
    {
      match leaf {
        case Atom(cl) => {
          match cl {
            case Exact(c) => Store([C_EXACT, c]);
            case AnyChar => Store([C_ANYCHAR]);
            case Syntax(k) => Store([C_SYNTAXSPEC, k]);
            case NotSyntax(k) => Store([C_NOTSYNTAXSPEC, k]);
            case InSet(_) => assert false;
          }
        }
        case Assert(a) => Store([OpOf(a)]);
        case Backref(n) => Store([C_MATCH_MEMORY, n]);
        case _ => assert false;
      }
    }

    /** An operator that stores one item, to which a postfix operator may then apply. */
    method Item(leaf: Re)
      requires Valid() && currentLevel == 4 && IsLeaf(leaf)
      modifies this, pattern, starts
      ensures Valid() && currentLevel == 4 && st == old(st).(cur := Shift(old(st).cur, leaf), begin := false)
      ensures pattern == old(pattern) || fresh(pattern)
    {
      hide *;
      MeansValid();
      MeansShape();
      ghost var code, levels, jumps, regs := pattern[..offset], starts[..], futureJumps[..numJumps],
        openRegisters[..numOpen];
      LevelBounds(st, code, levels, jumps, 4);
      SetLevelStart();
      StoreLeaf(leaf);
      MeansShape();
      beginning := false;
      ghost var st' := st.(cur := Shift(st.cur, leaf), begin := false);
      LaidShift(st, code, levels, jumps, leaf, st');
      ShiftFrame(st.cur, leaf);
      RegsSame(st, regs, st');
      st := st';
      MeansValid();
    }

    /** `^` and `$`, as operators or as characters: no postfix operator applies to them. */
    method Item3(leaf: Re)
      requires Valid() && currentLevel == 3 && IsLeaf(leaf)
      modifies this, pattern, starts
      ensures Valid() && currentLevel == 3 && st == old(st).(cur := Merge(Shift(old(st).cur, leaf)), begin := false)
      ensures pattern == old(pattern) || fresh(pattern)
    {
      hide *;
      MeansValid();
      MeansShape();
      ghost var code, levels, jumps, regs := pattern[..offset], starts[..], futureJumps[..numJumps],
        openRegisters[..numOpen];
      LevelBounds(st, code, levels, jumps, 3);
      SetLevelStart();
      StoreLeaf(leaf);
      MeansShape();
      beginning := false;
      ghost var st' := st.(cur := Merge(Shift(st.cur, leaf)), begin := false);
      LaidShift3(st, code, levels, jumps, leaf, st');
      ShiftFrame(st.cur, leaf);
      MergeFrame(Shift(st.cur, leaf));
      RegsSame(st, regs, st');
      st := st';
      MeansValid();
    }

    /** Stores Cset and an empty set, and then fills the set as the pattern says from pos on. */
    method StoreSet(regex: seq<byte>, pos: nat) returns (ok: bool, pos': nat)
      requires Shape() && pos <= |regex|
      modifies `pattern, `offset, pattern
      ensures Shape() && (ok <==> ReadSet(regex, pos).SetOf?)
      ensures ok ==> pos < pos' <= |regex| && pos' == ReadSet(regex, pos).pos
      ensures ok ==> pattern[..offset] == old(pattern[..offset]) + Gen(Atom(InSet(ReadSet(regex, pos).cs)))
      ensures pattern == old(pattern) || fresh(pattern)
    {
      hide *;
      MeansShape();
      ghost var code := pattern[..offset];
      Store([C_SET] + seq(32, k => 0));
      MeansShape();
      ghost var front := pattern[..offset - 32];
      ghost var bits := pattern[offset - 32..offset];
      NewSet(code, pattern[..offset]);
      assert pattern[..offset][..offset - 32] == front && pattern[..offset][offset - 32..] == bits;
      ok, pos' := ReadSetInto(pattern, offset - 32, regex, pos);
      if ok {
        bits := pattern[offset - 32..offset];
        MembersBitmap(bits);
        SetGen(bits);
        assert pattern[..offset] == front + bits;
        Regroup(code, [C_SET], bits);
      }
    }

    /** The case Ropenset. */
    method SetItem(regex: seq<byte>, pos: nat) returns (ok: bool, pos': nat)
      requires Valid() && currentLevel == 4 && pos <= |regex|
      modifies this, pattern, starts
      ensures ok <==> ReadSet(regex, pos).SetOf?
      ensures ok ==> Valid() && currentLevel == 4 && pos < pos' <= |regex| && pos' == ReadSet(regex, pos).pos
      ensures ok ==> st == old(st).(cur := Shift(old(st).cur, Atom(InSet(ReadSet(regex, pos).cs))), begin := false)
      ensures pattern == old(pattern) || fresh(pattern)
    {
      hide *;
      MeansValid();
      MeansShape();
      ghost var code, levels, jumps, regs := pattern[..offset], starts[..], futureJumps[..numJumps],
        openRegisters[..numOpen];
      LevelBounds(st, code, levels, jumps, 4);
      SetLevelStart();
      ok, pos' := StoreSet(regex, pos);
      MeansShape();
      if ok {
        beginning := false;
        ghost var leaf := Atom(InSet(ReadSet(regex, pos).cs));
        ghost var st' := st.(cur := Shift(st.cur, leaf), begin := false);
        LaidShift(st, code, levels, jumps, leaf, st');
        ShiftFrame(st.cur, leaf);
        RegsSame(st, regs, st');
        st := st';
        MeansValid();
      }
    }

    /** The cases Roptional, Rstar and Rplus. */
    method Postfix(op: byte)
      requires Valid() && currentLevel == 4 && (op == STAR || op == PLUS || op == QUESTION)
      modifies this, pattern
      ensures Valid() && currentLevel == 4 && st == old(st).(cur := Apply(old(st).cur, op), begin := false)
      ensures pattern == old(pattern) || fresh(pattern)
    {
      hide *;
      MeansValid();
      ghost var code, levels, jumps, regs := pattern[..offset], starts[..], futureJumps[..numJumps],
        openRegisters[..numOpen];
      LevelBounds(st, code, levels, jumps, 4);
      ghost var st' := st.(cur := Apply(st.cur, op), begin := false);
      LaidApply(st, code, levels, jumps, op, st');
      ApplyFrame(st.cur, op);
      RegsSame(st, regs, st');
      var s := starts[startsBase + currentLevel];
      if s != offset {
        pattern := Alloc(pattern, offset, 9);
        assert pattern[..s] == pattern[..offset][..s] && pattern[s..offset] == pattern[..offset][s..];
        PostfixJumps(pattern, offset, s, op);
        offset := offset + (if op == QUESTION then 3 else if op == STAR then 6 else 9);
      }
      beginning := false;
      st := st';
      MeansValid();
    }

    /** The jumps around an alternative that begins at s. */
    method BarJump(s: nat)
      requires Shape() && s <= offset
      modifies `pattern, `offset, pattern
      ensures Shape() && (pattern == old(pattern) || fresh(pattern))
      ensures var code := old(pattern[..offset]);
              pattern[..offset] == code[..s] + JumpCode(C_FAILURE_JUMP, |code| - s + 3) + code[s..] + [C_JUMP, 0, 0]
    {
      hide JumpCode;
      pattern := Alloc(pattern, offset, 6);
      assert pattern[..s] == pattern[..offset][..s] && pattern[s..offset] == pattern[..offset][s..];
      BarJumps(pattern, offset, s);
      offset := offset + 6;
    }

    /** The case Ror. */
    method BarOp() returns (ok: bool)
      requires Valid() && currentLevel == 2
      modifies this, pattern, starts, futureJumps
      ensures ok <==> Feed(old(st), Bar).Ok?
      ensures ok ==> Valid() && currentLevel == 2 && Ok(st) == Feed(old(st), Bar)
      ensures !ok ==> Feed(old(st), Bar) == Err(TooComplex)
      ensures pattern == old(pattern) || fresh(pattern)
    {
      hide *;
      MeansValid();
      ghost var code, levels, jumps, regs := pattern[..offset], starts[..], futureJumps[..numJumps],
        openRegisters[..numOpen];
      LevelBounds(st, code, levels, jumps, 2);
      BarFed(st, code, levels, jumps);
      if numJumps < MAX_NESTING {
        ghost var st' := Feed(st, Bar).value;
        LaidBar(st, code, levels, jumps, st');
        RegsSame(st, regs, st');
      }
      BarStart(st, code, levels, jumps);
      MeansShape();
      BarJump(starts[startsBase + currentLevel]);
      MeansShape();
      if numJumps >= MAX_NESTING {
        return false;
      }
      futureJumps[numJumps] := offset - 2;
      numJumps := numJumps + 1;
      assert futureJumps[..numJumps] == jumps + [offset - 2];
      MeansShape();
      SetLevelStart();
      beginning := true;
      st := Feed(st, Bar).value;
      MeansValid();
      return true;
    }

    /** The next group gets a register, if there is one left. */
    method OpenRegister()
      requires Shape() && numOpen < RE_NREGS && 1 <= nextRegister <= RE_NREGS
      modifies `pattern, `offset, `numOpen, `nextRegister, pattern, openRegisters
      ensures Shape() && (pattern == old(pattern) || fresh(pattern))
      ensures pattern[..offset] == old(pattern[..offset])
        + HeadCode(if old(nextRegister) < RE_NREGS then old(nextRegister) else 0)
      ensures openRegisters[..numOpen] ==
        if old(nextRegister) < RE_NREGS then old(openRegisters[..numOpen]) + [old(nextRegister)]
        else old(openRegisters[..numOpen])
      ensures nextRegister == if old(nextRegister) < RE_NREGS then old(nextRegister) + 1 else old(nextRegister)
    {
      ghost var regs := openRegisters[..numOpen];
      if nextRegister < RE_NREGS {
        Store([C_START_MEMORY, nextRegister]);
        openRegisters[numOpen] := nextRegister;
        numOpen := numOpen + 1;
        assert openRegisters[..numOpen] == regs + [nextRegister];
        nextRegister := nextRegister + 1;
      }
    }

    /** The end of a group with a register. */
    method CloseRegister()
      requires Shape()
      modifies `pattern, `offset, `numOpen, pattern
      ensures Shape() && (pattern == old(pattern) || fresh(pattern))
      ensures var has := parenDepth < old(numOpen);
              && numOpen == (if has then old(numOpen) - 1 else old(numOpen))
              && openRegisters[..numOpen] == old(openRegisters[..numOpen])[..numOpen]
              && pattern[..offset] == old(pattern[..offset])
                + (if has then [C_END_MEMORY, openRegisters[numOpen]] else [])
    {
      if parenDepth < numOpen {
        numOpen := numOpen - 1;
        Store([C_END_MEMORY, openRegisters[numOpen]]);
      }
    }

    /** The case Ropenpar. */
    method OpenOp() returns (ok: bool)
      requires Valid() && currentLevel == 4
      modifies this, pattern, starts, openRegisters
      ensures ok <==> Feed(old(st), Open).Ok?
      ensures ok ==> Valid() && currentLevel == 0 && st.cur.pre.Eps? && Ok(st) == Feed(old(st), Open)
      ensures !ok ==> Feed(old(st), Open) == Err(TooComplex)
      ensures pattern == old(pattern) || fresh(pattern)
    {
      hide *;
      MeansValid();
      MeansShape();
      ghost var code, levels, jumps, regs := pattern[..offset], starts[..], futureJumps[..numJumps],
        openRegisters[..numOpen];
      LevelBounds(st, code, levels, jumps, 4);
      OpenFed(st);
      RegBounds(st, regs);
      SetLevelStart();
      OpenRegister();
      parenDepth := parenDepth + 1;
      if startsBase >= 5 * (MAX_NESTING - 1) {
        return false;
      }
      ghost var st' := Feed(st, Open).value;
      RegsOpen(st, regs, st');
      startsBase := startsBase + 5;
      currentLevel := 0;
      beginning := true;
      MeansShape();
      SetLevelStart();
      LaidOpen(st, code, levels, jumps, st'.cur.reg, st', starts[..]);
      assert futureJumps[..numJumps] == jumps;
      st := st';
      MeansValid();
      return true;
    }

    /** The case Rclosepar, after the jumps of the group have been patched. */
    method CloseOp() returns (ok: bool)
      requires Valid() && currentLevel == 1
      modifies this, pattern
      ensures ok <==> Feed(old(st), Close).Ok?
      ensures ok ==> Valid() && currentLevel == 4 && Ok(st) == Feed(old(st), Close)
      ensures !ok ==> Feed(old(st), Close) == Err(Parenthesis)
      ensures pattern == old(pattern) || fresh(pattern)
    {
      hide *;
      MeansValid();
      MeansShape();
      ghost var code, levels, jumps, regs := pattern[..offset], starts[..], futureJumps[..numJumps],
        openRegisters[..numOpen];
      LevelBounds(st, code, levels, jumps, 1);
      CloseFed(st);
      if parenDepth <= 0 {
        return false;
      }
      ghost var st' := Feed(st, Close).value;
      RegsClose(st, regs, st');
      LaidClose(st, code, levels, jumps, 1, st');
      startsBase := startsBase - 5;
      currentLevel := 4;
      parenDepth := parenDepth - 1;
      MeansShape();
      CloseRegister();
      MeansShape();
      beginning := false;
      st := st';
      MeansValid();
      return true;
    }

    /** One operator, other than a set. */
    method Step(tok: Token) returns (ok: bool, error: CompileError)
      requires Valid() && (currentLevel < 2 ==> st.cur.pre.Eps?)
      requires (tok.Item? ==> IsLeaf(tok.leaf))
        && (tok.Postfix? ==> tok.op == STAR || tok.op == PLUS || tok.op == QUESTION)
      modifies this, pattern, starts, futureJumps, openRegisters
      ensures ok <==> Feed(old(st), tok).Ok?
      ensures ok ==> Valid() && Ok(st) == Feed(old(st), tok) && (currentLevel < 2 ==> st.cur.pre.Eps?)
      ensures !ok ==> Feed(old(st), tok) == Err(error)
      ensures pattern == old(pattern) || fresh(pattern)
    {
      hide *;
      ok, error := true, Premature;
      ghost var level := LevelOf(tok);
      Levels(tok);
      FeedSettled(st, tok);
      AdjustLevel(if tok.Bar? then 2 else if tok.Caret? || tok.Dollar? then 3 else if tok.Close? then 1 else 4);
      FeedIs(st, tok);
      MeansValid();
      match tok {
        case Item(leaf) => Item(leaf);
        case Caret => Item3(if beginning then Assert(Bol) else Atom(Exact(CARET)));
        case Dollar(last) => Item3(if last then Assert(Eol) else Atom(Exact(DOLLAR)));
        case Postfix(op) => {
          if beginning {
            Item(Atom(Exact(op)));
          } else {
            Postfix(op);
          }
        }
        case Bar => {
          ok := BarOp();
          error := TooComplex;
        }
        case Open => {
          ok := OpenOp();
          error := TooComplex;
        }
        case Close => {
          ok := CloseOp();
          error := Parenthesis;
        }
        case Wrong(e) => ok, error := false, e;
      }
    }

    /** GOOMBAServer_re_compile_pattern.  After the call the code is that of the pattern that regex
        stands for, and no jump is left to be patched; or the error is the one of the first operator
        that cannot be read. */
    method Compile(regex: seq<byte>) returns (ok: bool, error: CompileError)
      requires Valid() && st == Start() && currentLevel == 0
      modifies this, pattern, starts, futureJumps, openRegisters
      ensures ok <==> Parse(regex).Ok?
      ensures ok ==>
        offset <= pattern.Length && pattern[..offset] == RegexCode.Compile(Parse(regex).value) && numJumps == 0
      ensures !ok ==> Parse(regex) == Err(error)
      ensures pattern == old(pattern) || fresh(pattern)
    {
      hide *;
      ok, error := true, Premature;
      var pos := 0;
      ParseStart(regex);
      while pos < |regex|
        invariant Valid() && pos <= |regex| && (currentLevel < 2 ==> st.cur.pre.Eps?)
        invariant pattern == old(pattern) || fresh(pattern)
        invariant ParseFrom(regex, pos, st) == Parse(regex)
        decreases |regex| - pos
      {
        ParseStep(regex, pos, st);
        ReadAt(regex, pos);
        ghost var st0, tok, next := st, TokenAt(regex, pos).0, TokenAt(regex, pos).1;
        var ch := regex[pos];
        pos := pos + 1;
        if ch == OPENSET {
          SettledParts(st, 4);
          AdjustLevel(4);
          SetFed(st, regex, pos);
          ok, pos := SetItem(regex, pos);
          error := Premature;
        } else if ch == BACKSLASH {
          if pos >= |regex| {
            WrongFed(st, Premature);
            return false, Premature;
          }
          QuotedLeaf(regex[pos]);
          ok, error := Step(Quoted(regex[pos]));
          pos := pos + 1;
        } else {
          PlainLeaf(regex, pos - 1);
          ok, error := Step(PlainToken(regex, pos - 1));
        }
        if !ok {
          return;
        }
        assert Feed(st0, tok) == Ok(st) && pos == next;
      }
      ParseEnd(regex, st);
      SettledParts(st, 0);
      ReduceIs(st.cur);
      AdjustLevel(0);
      MeansValid();
      if startsBase != 0 {
        return false, Parenthesis;
      }
      OutermostReg(st, openRegisters[..numOpen]);
      LaidFinish(st, pattern[..offset], starts[..], futureJumps[..numJumps], 0);
      MeansShape();
      Store([C_END]);
      CompileIs(st.cur.pre);
      return true, error;
    }

    lemma MeansShape()
      ensures Shape() <==>
        && offset <= pattern.Length && starts.Length == 5 * MAX_NESTING
        && futureJumps.Length == MAX_NESTING && numJumps <= MAX_NESTING
        && openRegisters.Length == RE_NREGS && numOpen <= RE_NREGS
        && pattern as object != starts && pattern as object != futureJumps && pattern as object != openRegisters
        && starts as object != futureJumps && starts as object != openRegisters
          && futureJumps as object != openRegisters
    {
    }

    lemma MeansValid()
      ensures Valid() <==>
        && offset <= pattern.Length && starts.Length == 5 * MAX_NESTING
        && futureJumps.Length == MAX_NESTING && numJumps <= MAX_NESTING
        && openRegisters.Length == RE_NREGS && numOpen <= RE_NREGS
        && pattern as object != starts && pattern as object != futureJumps && pattern as object != openRegisters
        && starts as object != futureJumps && starts as object != openRegisters
          && futureJumps as object != openRegisters
        && startsBase == 5 * |st.outer| && parenDepth == |st.outer|
        && beginning == st.begin && nextRegister == st.next
        && RegsOk(st, openRegisters[..numOpen])
        && Laid(st, pattern[..offset], starts[..], futureJumps[..numJumps], currentLevel)
    {
      hide Laid, RegsOk;
    }
  }
}
