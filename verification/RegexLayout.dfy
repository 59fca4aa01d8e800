/** Code under construction: where the bytes of the parser's open frames lie, and what inserting jumps
    and patching them does to it. */
module RegexLayout {
  import opened RegexSyntax
  import opened RegexProgram
  import opened RegexCode
  import opened RegexParse

  // ----- the code of open frames -----

  function HeadCode(reg: byte): seq<byte> {
    if reg == 0 then [] else [C_START_MEMORY, reg]
  }

  /** Complete alternatives: the jump behind each is still to be patched. */
  function AltsCode(alts: seq<Re>): seq<byte>
    decreases |alts|
  {
    if alts == [] then []
    else
      var a := alts[|alts| - 1];
      AltsCode(alts[..|alts| - 1]) + JumpCode(C_FAILURE_JUMP, Len(a) + 3) + Gen(a) + [C_JUMP, 0, 0]
  }

  function FrameCode(f: Frame): seq<byte> {
    HeadCode(f.reg) + AltsCode(f.alts) + Gen(f.pre) + Gen(f.last)
  }

  function FramesCode(fs: seq<Frame>): seq<byte>
    decreases |fs|
  {
    if fs == [] then [] else FramesCode(fs[..|fs| - 1]) + FrameCode(fs[|fs| - 1])
  }

  /** The offsets of the operands to patch: one behind each complete alternative. */
  function FrameJumps(start: nat, alts: seq<Re>): seq<int>
    decreases |alts|
  {
    if alts == [] then [] else FrameJumps(start, alts[..|alts| - 1]) + [start + |AltsCode(alts)| - 2]
  }

  function Jumps(fs: seq<Frame>): seq<int>
    decreases |fs|
  {
    if fs == [] then []
    else
      var f := fs[|fs| - 1];
      Jumps(fs[..|fs| - 1]) + FrameJumps(|FramesCode(fs[..|fs| - 1])| + |HeadCode(f.reg)|, f.alts)
  }

  lemma FramesSnoc(fs: seq<Frame>, f: Frame)
    ensures FramesCode(fs + [f]) == FramesCode(fs) + FrameCode(f)
    ensures Jumps(fs + [f]) == Jumps(fs) + FrameJumps(|FramesCode(fs)| + |HeadCode(f.reg)|, f.alts)
    ensures Pending(fs + [f]) == Pending(fs) + |f.alts|
  {
    hide *;
    FramesLast(fs + [f]);
    assert (fs + [f])[..|fs|] == fs;
  }

  lemma FramesLast(fs: seq<Frame>)
    requires fs != []
    ensures var rest, f := fs[..|fs| - 1], fs[|fs| - 1];
            && FramesCode(fs) == FramesCode(rest) + FrameCode(f)
            && Jumps(fs) == Jumps(rest) + FrameJumps(|FramesCode(rest)| + |HeadCode(f.reg)|, f.alts)
            && Pending(fs) == Pending(rest) + |f.alts|
  {
    hide FrameCode, FrameJumps, HeadCode;
  }

  lemma AltsSnoc(alts: seq<Re>, a: Re, start: nat)
    ensures AltsCode(alts + [a]) == AltsCode(alts) + JumpCode(C_FAILURE_JUMP, Len(a) + 3) + Gen(a) + [C_JUMP, 0, 0]
    ensures FrameJumps(start, alts + [a]) == FrameJumps(start, alts) + [start + |AltsCode(alts + [a])| - 2]
  {
    hide *;
    AltsLast(alts + [a], start);
    assert (alts + [a])[..|alts|] == alts;
  }

  lemma AltsLast(alts: seq<Re>, start: nat)
    requires alts != []
    ensures var rest, a := alts[..|alts| - 1], alts[|alts| - 1];
            && AltsCode(alts) == AltsCode(rest) + JumpCode(C_FAILURE_JUMP, Len(a) + 3) + Gen(a) + [C_JUMP, 0, 0]
            && FrameJumps(start, alts) == FrameJumps(start, rest) + [start + |AltsCode(alts)| - 2]
  {
    hide Gen, JumpCode, Len;
  }

  lemma {:induction false} JumpsIn(start: nat, alts: seq<Re>)
    ensures |FrameJumps(start, alts)| == |alts|
    ensures forall k :: 0 <= k < |alts| ==> start <= FrameJumps(start, alts)[k] < start + |AltsCode(alts)|
    decreases |alts|
  {
    hide Gen, JumpCode;
    if alts != [] {
      JumpsIn(start, alts[..|alts| - 1]);
      assert |AltsCode(alts)| >= |AltsCode(alts[..|alts| - 1])| + 3;
    }
  }

  /** All pending operands lie in the code there is. */
  lemma {:induction false} JumpsBelow(fs: seq<Frame>)
    ensures |Jumps(fs)| == Pending(fs)
    ensures forall k :: 0 <= k < |Jumps(fs)| ==> 0 <= Jumps(fs)[k] < |FramesCode(fs)|
    decreases |fs|
  {
    hide *;
    if fs == [] {
      NoFrameJumps();
    } else {
      var f, rest := fs[|fs| - 1], fs[..|fs| - 1];
      JumpsBelow(rest);
      assert fs == rest + [f];
      FramesSnoc(rest, f);
      JumpsIn(|FramesCode(rest)| + |HeadCode(f.reg)|, f.alts);
      FrameIs(f);
    }
  }

  lemma NoFrameJumps()
    ensures Jumps([]) == [] && Pending([]) == 0
  {
  }

  lemma GenSnoc(pre: Re, last: Re)
    ensures Gen(Snoc(pre, last)) == Gen(pre) + Gen(last)
    ensures Len(Snoc(pre, last)) == Len(pre) + Len(last)
  {
    hide Gen, Len;
    GenIs(pre);
    GenIs(last);
    GenIs(Snoc(pre, last));
  }

  // ----- patching -----

  /** The last complete alternative of f joins what follows it. */
  function Fold1(f: Frame): Frame
    requires f.alts != []
  {
    Frame(f.reg, f.alts[..|f.alts| - 1], Alt(f.alts[|f.alts| - 1], f.pre), Eps)
  }

  lemma Fold1Build(f: Frame)
    requires f.alts != [] && f.last.Eps?
    ensures Build(Fold1(f)) == Build(f)
  {
  }

  lemma PatchBytes(front: seq<byte>, tail: seq<byte>, d: seq<byte>, code: seq<byte>, j: nat)
    requires code == front + [C_JUMP, 0, 0] + tail && j == |front| + 1 && |d| == 2
    ensures j + 2 == |code| - |tail|
    ensures code[..j] + d + code[j + 2..] == front + ([C_JUMP] + d) + tail
  {
  }

  /** The same bytes, grouped as alternatives with a jump k behind the last one, ... */
  lemma Unfolded(p: seq<byte>, h: seq<byte>, c: seq<byte>, i: seq<byte>, g: seq<byte>, k: seq<byte>, t: seq<byte>,
                 alts: seq<byte>, frame: seq<byte>, front: seq<byte>, all: seq<byte>)
    requires alts == c + i + g + k && frame == h + alts + t + [] && all == p + frame && front == p + h + c + i + g
    ensures all == front + k + t
  {
  }

  /** ... and as one alternation. */
  lemma Folded(p: seq<byte>, h: seq<byte>, c: seq<byte>, i: seq<byte>, g: seq<byte>, k: seq<byte>, t: seq<byte>,
               alt: seq<byte>, frame: seq<byte>, front: seq<byte>, all: seq<byte>)
    requires alt == i + g + k + t && frame == h + c + alt + [] && all == p + frame && front == p + h + c + i + g
    ensures all == front + k + t
  {
  }

  /** The code in front of the jump behind the last complete alternative of f. */
  function Front(fs: seq<Frame>, f: Frame): seq<byte>
    requires f.alts != []
  {
    var a := f.alts[|f.alts| - 1];
    FramesCode(fs) + HeadCode(f.reg) + AltsCode(f.alts[..|f.alts| - 1]) + JumpCode(C_FAILURE_JUMP, Len(a) + 3) + Gen(a)
  }

  lemma UnpatchedCode(fs: seq<Frame>, f: Frame)
    requires f.alts != [] && f.last.Eps?
    ensures FramesCode(fs + [f]) == Front(fs, f) + [C_JUMP, 0, 0] + Gen(f.pre)
    ensures |FramesCode(fs)| + |HeadCode(f.reg)| + |AltsCode(f.alts)| == |Front(fs, f)| + 3
  {
    hide *;
    var alts, a := f.alts[..|f.alts| - 1], f.alts[|f.alts| - 1];
    FrontIs(fs, f);
    FramesSnoc(fs, f);
    assert f.alts == alts + [a];
    AltsSnoc(alts, a, 0);
    FrameIs(f);
    Unfolded(FramesCode(fs), HeadCode(f.reg), AltsCode(alts), JumpCode(C_FAILURE_JUMP, Len(a) + 3), Gen(a),
      [C_JUMP, 0, 0], Gen(f.pre),
             AltsCode(f.alts), FrameCode(f), Front(fs, f), FramesCode(fs + [f]));
  }

  lemma PatchedCode(fs: seq<Frame>, f: Frame)
    requires f.alts != [] && f.last.Eps?
    ensures FramesCode(fs + [Fold1(f)]) == Front(fs, f) + ([C_JUMP] + Disp(Len(f.pre))) + Gen(f.pre)
  {
    hide *;
    var alts, a := f.alts[..|f.alts| - 1], f.alts[|f.alts| - 1];
    FrontIs(fs, f);
    Fold1Is(f);
    var g := Frame(f.reg, alts, Alt(a, f.pre), Eps);
    FramesSnoc(fs, g);
    FrameIs(g);
    AltGen(a, f.pre);
    Folded(FramesCode(fs), HeadCode(f.reg), AltsCode(alts), JumpCode(C_FAILURE_JUMP, Len(a) + 3), Gen(a),
      [C_JUMP] + Disp(Len(f.pre)), Gen(f.pre),
           Gen(Alt(a, f.pre)), FrameCode(g), Front(fs, f), FramesCode(fs + [g]));
  }

  lemma FrontIs(fs: seq<Frame>, f: Frame)
    requires f.alts != []
    ensures var a := f.alts[|f.alts| - 1];
            Front(fs, f) == FramesCode(fs) + HeadCode(f.reg) + AltsCode(f.alts[..|f.alts| - 1])
              + JumpCode(C_FAILURE_JUMP, Len(a) + 3) + Gen(a)
  {
  }

  /** PUT_ADDR on the last pending operand turns an unfinished alternation into the code of Alt. */
  lemma PatchLast(fs: seq<Frame>, f: Frame, code: seq<byte>, j: nat)
    requires f.alts != [] && f.last.Eps? && code == FramesCode(fs + [f])
    requires j == |FramesCode(fs)| + |HeadCode(f.reg)| + |AltsCode(f.alts)| - 2
    ensures j + 2 <= |code|
    ensures code[..j] + Disp(|code| - j - 2) + code[j + 2..] == FramesCode(fs + [Fold1(f)])
  {
    hide *;
    UnpatchedCode(fs, f);
    PatchedCode(fs, f);
    GenLength(f.pre);
    JumpIs(C_JUMP, Len(f.pre));
    PatchBytes(Front(fs, f), Gen(f.pre), Disp(Len(f.pre)), code, j);
  }

  lemma GenLength(re: Re)
    ensures |Gen(re)| == Len(re)
  {
  }

  lemma Fold1Is(f: Frame)
    requires f.alts != []
    ensures Fold1(f) == Frame(f.reg, f.alts[..|f.alts| - 1], Alt(f.alts[|f.alts| - 1], f.pre), Eps)
  {
  }

  lemma FrameIs(f: Frame)
    ensures FrameCode(f) == HeadCode(f.reg) + AltsCode(f.alts) + Gen(f.pre) + (if f.last.Eps? then [] else Gen(f.last))
    ensures |Gen(f.pre)| == Len(f.pre)
  {
    hide AltsCode, HeadCode;
  }

  lemma AltGen(a: Re, b: Re)
    ensures Gen(Alt(a, b)) == JumpCode(C_FAILURE_JUMP, Len(a) + 3) + Gen(a) + JumpCode(C_JUMP, Len(b)) + Gen(b)
    ensures JumpCode(C_JUMP, Len(b)) == [C_JUMP] + Disp(Len(b)) && |Disp(Len(b))| == 2
  {
    hide *;
    JumpIs(C_JUMP, Len(b));
    GenIs(Alt(a, b));
    GenIs(a);
    GenIs(b);
    AltIs(Gen(a), Gen(b));
  }

  lemma AltIs(x: seq<byte>, y: seq<byte>)
    ensures AltBytes(x, y) == JumpCode(C_FAILURE_JUMP, |x| + 3) + x + JumpCode(C_JUMP, |y|) + y
  {
    hide JumpCode;
  }

  lemma JumpIs(op: byte, d: int)
    ensures JumpCode(op, d) == [op] + Disp(d) && |Disp(d)| == 2
  {
  }

  // ----- what the other steps do to the code -----

  lemma MergeCode(f: Frame)
    ensures FrameCode(Merge(f)) == FrameCode(f) && Build(Merge(f)) == Build(f)
  {
    hide Gen, AltsCode, HeadCode;
    GenSnoc(f.pre, f.last);
  }

  lemma ShiftCode(f: Frame, item: Re)
    ensures FrameCode(Shift(f, item)) == FrameCode(f) + Gen(item)
  {
    hide *;
    GenSnoc(f.pre, f.last);
    FrameCodeIs(f);
    FrameCodeIs(Shift(f, item));
    ShiftParts(f, item);
    Reassociate(HeadCode(f.reg), AltsCode(f.alts), Gen(f.pre), Gen(f.last), Gen(item));
  }

  lemma FrameCodeIs(f: Frame)
    ensures FrameCode(f) == HeadCode(f.reg) + AltsCode(f.alts) + Gen(f.pre) + Gen(f.last)
  {
    hide HeadCode, AltsCode, Gen;
  }

  lemma ShiftParts(f: Frame, item: Re)
    ensures var g := Shift(f, item);
      g.reg == f.reg && g.alts == f.alts && g.pre == Snoc(f.pre, f.last) && g.last == item
  {
    hide Snoc;
  }

  lemma Reassociate(a: seq<byte>, b: seq<byte>, c: seq<byte>, d: seq<byte>, e: seq<byte>)
    ensures a + b + (c + d) + e == a + b + c + d + e
  {
    assert a + b + (c + d) == a + b + c + d;
  }

  /** The part of the frame's code in front of its last item. */
  function BeforeLast(f: Frame): seq<byte> {
    HeadCode(f.reg) + AltsCode(f.alts) + Gen(f.pre)
  }

  /** The code that a postfix operator puts in place of the code `body` of its operand. */
  function PostfixCode(op: byte, body: seq<byte>): seq<byte> {
    if op == QUESTION then OptBytes(body) else if op == PLUS then PlusBytes(body) else LoopBytes(body)
  }

  lemma ApplyCode(f: Frame, op: byte)
    requires Len(f.last) > 0 && (op == STAR || op == PLUS || op == QUESTION)
    ensures FrameCode(f) == BeforeLast(f) + Gen(f.last)
    ensures FrameCode(Apply(f, op)) == BeforeLast(f) + PostfixCode(op, Gen(f.last))
  {
    PostfixGen(f.last);
    hide Gen, AltsCode, HeadCode, PostfixCode;
  }

  lemma PostfixGen(b: Re)
    ensures Gen(Opt(b)) == PostfixCode(QUESTION, Gen(b))
    ensures Gen(Star(b)) == PostfixCode(STAR, Gen(b))
    ensures Gen(Plus(b)) == PostfixCode(PLUS, Gen(b))
  {
    hide *;
    GenIs(Opt(b));
    GenIs(Star(b));
    GenIs(Plus(b));
    PostfixIs(Gen(b));
  }

  lemma PostfixIs(x: seq<byte>)
    ensures PostfixCode(QUESTION, x) == OptBytes(x) && PostfixCode(STAR, x) == LoopBytes(x)
      && PostfixCode(PLUS, x) == PlusBytes(x)
  {
    hide OptBytes, PlusBytes, LoopBytes;
  }

  /** `\|`: a failure jump in front of the alternative, a jump to be patched behind it. */
  lemma BarCode(fs: seq<Frame>, f: Frame)
    ensures var a, g := Snoc(f.pre, f.last), Frame(f.reg, f.alts + [Snoc(f.pre, f.last)], Eps, Eps);
            var front := FramesCode(fs) + HeadCode(f.reg) + AltsCode(f.alts);
            && FramesCode(fs + [f]) == front + Gen(a)
            && FramesCode(fs + [g]) == front + JumpCode(C_FAILURE_JUMP, Len(a) + 3) + Gen(a) + [C_JUMP, 0, 0]
            && Jumps(fs + [g]) == Jumps(fs + [f]) + [|FramesCode(fs + [g])| - 2]
            && |AltsCode(g.alts)| + |FramesCode(fs)| + |HeadCode(f.reg)| == |FramesCode(fs + [g])|
  {
    hide *;
    var a := Snoc(f.pre, f.last);
    var g := Frame(f.reg, f.alts + [a], Eps, Eps);
    FramesSnoc(fs, f);
    FramesSnoc(fs, g);
    AltsSnoc(f.alts, a, |FramesCode(fs)| + |HeadCode(f.reg)|);
    MergeIs(f);
    FrameIs(Frame(f.reg, f.alts, a, Eps));
    FrameIs(g);
    EpsCode();
    var p, h, c, i, t := FramesCode(fs), HeadCode(f.reg), AltsCode(f.alts), JumpCode(C_FAILURE_JUMP, Len(a) + 3),
      Gen(a);
    assert p + (h + c + t + []) == p + h + c + t;
    assert p + (h + (c + i + t + [C_JUMP, 0, 0]) + [] + []) == p + h + c + i + t + [C_JUMP, 0, 0];
  }

  lemma EpsCode()
    ensures Gen(Eps) == []
  {
  }

  lemma MergeIs(f: Frame)
    ensures FrameCode(f) == FrameCode(Frame(f.reg, f.alts, Snoc(f.pre, f.last), Eps))
  {
    hide FrameCode;
    MergeCode(f);
  }

  /** `\)`: the group is the last item of the frame around it. */
  lemma CloseCode(fs: seq<Frame>, outer: Frame, f: Frame)
    requires f.alts == [] && f.last.Eps? && outer.last.Eps?
    ensures FramesCode(fs + [outer] + [f]) + (if f.reg == 0 then [] else [C_END_MEMORY, f.reg])
            == FramesCode(fs + [outer.(last := Group(f.reg, f.pre))])
    ensures Jumps(fs + [outer] + [f]) == Jumps(fs + [outer.(last := Group(f.reg, f.pre))])
  {
    var group := Group(f.reg, f.pre);
    GroupGen(f.reg, f.pre);
    assert FrameJumps(0, f.alts) == [];
    ShiftedJumps(fs, outer, f);
    hide *;
    FramesSnoc(fs + [outer], f);
    FramesSnoc(fs, outer);
    FramesSnoc(fs, outer.(last := group));
    FrameIs(f);
    LastIs(outer);
    LastIs(outer.(last := group));
    NoAlts(f);
    var p, x, t, h := FramesCode(fs), BeforeLast(outer), Gen(f.pre), HeadCode(f.reg);
    BeforeIs(outer);
    var e: seq<byte> := if f.reg == 0 then [] else [C_END_MEMORY, f.reg];
    GroupPieces(p, x, h, t, e);
  }

  lemma GroupPieces(p: seq<byte>, x: seq<byte>, h: seq<byte>, t: seq<byte>, e: seq<byte>)
    ensures p + (x + []) + (h + [] + t + []) + e == p + (x + (h + t + e))
  {
  }

  lemma BeforeIs(f: Frame)
    ensures BeforeLast(f) == HeadCode(f.reg) + AltsCode(f.alts) + Gen(f.pre)
  {
  }

  lemma LastIs(f: Frame)
    ensures FrameCode(f) == BeforeLast(f) + (if f.last.Eps? then [] else Gen(f.last))
    ensures BeforeLast(f) == BeforeLast(f.(last := Eps))
  {
    hide AltsCode, HeadCode, Gen;
    EpsCode();
  }

  lemma NoAlts(f: Frame)
    requires f.alts == []
    ensures AltsCode(f.alts) == []
  {
  }

  lemma GroupGen(reg: byte, b: Re)
    ensures Gen(Group(reg, b)) == HeadCode(reg) + Gen(b) + (if reg == 0 then [] else [C_END_MEMORY, reg])
  {
    hide Gen, GroupBytes;
    GenIs(Group(reg, b));
    GroupIs(reg, Gen(b));
  }

  lemma ShiftedJumps(fs: seq<Frame>, outer: Frame, f: Frame)
    requires f.alts == []
    ensures Jumps(fs + [outer] + [f]) == Jumps(fs + [outer.(last := Group(f.reg, f.pre))])
  {
    hide FramesCode, HeadCode, Jumps;
    FramesSnoc(fs + [outer], f);
    FramesSnoc(fs, outer);
    FramesSnoc(fs, outer.(last := Group(f.reg, f.pre)));
  }

  // ----- where the levels of a frame begin -----

  /** starts[b + k] is where level k of the frame f begins, for the levels up to L that are in use; o
      is where its code begins.  Below level 4 there is no item for a postfix operator, and below
      level 2 there are no alternatives yet. */
  ghost predicate LevelsOk(f: Frame, starts: seq<int>, b: nat, o: nat, L: nat) {
    var start := o + |HeadCode(f.reg)|;
    && b + 5 <= |starts| && L <= 4 && starts[b] == start
    && (L >= 1 ==> starts[b + 1] == start)
    && (L >= 2 ==> starts[b + 2] == start + |AltsCode(f.alts)|)
    && (L >= 3 ==> starts[b + 3] >= starts[b + 2])
    && (L == 4 ==> starts[b + 4] == o + |BeforeLast(f)|)
    && (L < 4 ==> f.last.Eps?)
    && (L < 2 ==> f.alts == [])
  }

  ghost predicate OuterOk(fs: seq<Frame>, starts: seq<int>) {
    |starts| >= 5 * |fs| &&
    forall k :: 0 <= k < |fs| ==> fs[k].last.Eps? && LevelsOk(fs[k], starts, 5 * k, |FramesCode(fs[..k])|, 4)
  }

  /** The code, the level starts and the pending jumps that the compiler has for the frames of st. */
  ghost predicate Laid(st: State, code: seq<byte>, starts: seq<int>, jumps: seq<int>, L: nat) {
    && |starts| == 5 * MAX_NESTING && |st.outer| < MAX_NESTING && |jumps| <= MAX_NESTING
    && code == FramesCode(Frames(st)) && jumps == Jumps(Frames(st))
    && LevelsOk(st.cur, starts, 5 * |st.outer|, |FramesCode(st.outer)|, L)
    && OuterOk(st.outer, starts)
  }

  /** Going up to a higher level. */
  lemma Raise(st: State, code: seq<byte>, starts: seq<int>, jumps: seq<int>, L: nat, starts': seq<int>, level: nat)
    requires Laid(st, code, starts, jumps, L) && L < level <= 4 && (L < 2 ==> Len(st.cur.pre) == 0)
    requires |starts'| == |starts|
    requires forall k :: 0 <= k < |starts| ==>
      starts'[k] == if 5 * |st.outer| + L < k <= 5 * |st.outer| + level then |code| else starts[k]
    ensures Laid(st, code, starts', jumps, level)
  {
    hide HeadCode, AltsCode, Gen, FramesCode, OuterOk, Jumps, BeforeLast, Len, Frames;
    CodeLength(st);
    SameOuter(st.outer, starts, starts');
    EmptyPre(st.cur);
  }

  lemma EmptyPre(f: Frame)
    ensures |BeforeLast(f)| == |HeadCode(f.reg)| + |AltsCode(f.alts)| + Len(f.pre)
    ensures f.alts == [] ==> AltsCode(f.alts) == []
    ensures f.last.Eps? ==> Len(f.last) == 0
  {
  }

  lemma CodeLength(st: State)
    ensures |FramesCode(Frames(st))| == |FramesCode(st.outer)| + |BeforeLast(st.cur)| + Len(st.cur.last)
  {
    hide HeadCode, AltsCode, FramesCode, Jumps;
    FramesSnoc(st.outer, st.cur);
  }

  lemma SameOuter(fs: seq<Frame>, starts: seq<int>, starts': seq<int>)
    requires OuterOk(fs, starts) && |starts'| == |starts| && forall k :: 0 <= k < 5 * |fs| ==> starts'[k] == starts[k]
    ensures OuterOk(fs, starts')
  {
    hide HeadCode, AltsCode, BeforeLast, FramesCode;
  }

  /** The current frame changes, and with it the end of the code and the starts of its levels. */
  lemma Relay(st: State, starts: seq<int>, st': State, code: seq<byte>, starts': seq<int>, jumps: seq<int>, L: nat)
    requires OuterOk(st.outer, starts) && st'.outer == st.outer && |st.outer| < MAX_NESTING && |jumps| <= MAX_NESTING
    requires |starts'| == |starts| == 5 * MAX_NESTING && forall k :: 0 <= k < 5 * |st.outer| ==> starts'[k] == starts[k]
    requires code == FramesCode(st.outer + [st'.cur]) && jumps == Jumps(st.outer + [st'.cur])
    requires LevelsOk(st'.cur, starts', 5 * |st.outer|, |FramesCode(st.outer)|, L)
    ensures Laid(st', code, starts', jumps, L)
  {
    hide LevelsOk, OuterOk, FramesCode, Jumps;
    SameOuter(st.outer, starts, starts');
  }

  lemma LaidParts(st: State, code: seq<byte>, starts: seq<int>, jumps: seq<int>, L: nat)
    requires Laid(st, code, starts, jumps, L)
    ensures OuterOk(st.outer, starts) && |starts| == 5 * MAX_NESTING && |st.outer| < MAX_NESTING
      && |jumps| <= MAX_NESTING
    ensures code == FramesCode(st.outer + [st.cur]) && jumps == Jumps(st.outer + [st.cur])
    ensures LevelsOk(st.cur, starts, 5 * |st.outer|, |FramesCode(st.outer)|, L)
  {
    hide LevelsOk, OuterOk, FramesCode, Jumps;
  }

  lemma SameJumps(fs: seq<Frame>, f: Frame, g: Frame)
    requires f.reg == g.reg && f.alts == g.alts
    ensures Jumps(fs + [f]) == Jumps(fs + [g])
  {
    hide *;
    FramesSnoc(fs, f);
    FramesSnoc(fs, g);
  }

  lemma LaidStart(starts: seq<int>)
    requires |starts| == 5 * MAX_NESTING && starts[0] == 0
    ensures Laid(Start(), [], starts, [], 0)
  {
    FramesSnoc([], Start().cur);
    assert FramesCode([]) == [] && Jumps([]) == [];
  }

  /** Going down to level 2 or 3: the items of the alternative so far become one; no jump is pending
      behind its start. */
  lemma Lower(st: State, code: seq<byte>, starts: seq<int>, jumps: seq<int>, L: nat, level: nat)
    requires Laid(st, code, starts, jumps, L) && 2 <= level < L
    ensures Laid(st.(cur := Merge(st.cur)), code, starts, jumps, level)
    ensures 5 * |st.outer| + level < |starts| && (jumps != [] ==> jumps[|jumps| - 1] < starts[5 * |st.outer| + level])
  {
    hide *;
    LaidParts(st, code, starts, jumps, L);
    MergeFrame(st.cur);
    FramesSnoc(st.outer, st.cur);
    FramesSnoc(st.outer, Merge(st.cur));
    LowerLevels(st.cur, starts, 5 * |st.outer|, |FramesCode(st.outer)|, L, level);
    JumpsBelow(st.outer);
    JumpsIn(|FramesCode(st.outer)| + |HeadCode(st.cur.reg)|, st.cur.alts);
    Relay(st, starts, st.(cur := Merge(st.cur)), code, starts, jumps, level);
  }

  lemma MergeFrame(f: Frame)
    ensures FrameCode(Merge(f)) == FrameCode(f) && Merge(f).reg == f.reg && Merge(f).alts == f.alts
      && Merge(f).last == Eps
    ensures Merge(f).pre == Snoc(f.pre, f.last)
  {
    hide FrameCode;
    MergeCode(f);
  }

  lemma LowerLevels(f: Frame, starts: seq<int>, b: nat, o: nat, L: nat, level: nat)
    requires LevelsOk(f, starts, b, o, L) && 2 <= level < L
    ensures LevelsOk(Merge(f), starts, b, o, level)
    ensures b + 5 <= |starts| && o + |HeadCode(f.reg)| + |AltsCode(f.alts)| <= starts[b + level] && level <= 4
  {
    hide HeadCode, AltsCode, Gen, BeforeLast, Snoc;
  }

  /** The topmost pending jump and the start of the frame. */
  lemma TopJump(fs: seq<Frame>, g: Frame, jumps: seq<int>, start: int)
    requires jumps == Jumps(fs + [g]) && start == |FramesCode(fs)| + |HeadCode(g.reg)| && g.last.Eps?
    ensures jumps != [] && jumps[|jumps| - 1] >= start <==> g.alts != []
    ensures g.alts != [] ==>
      jumps[|jumps| - 1] == start + |AltsCode(g.alts)| - 2 && jumps[..|jumps| - 1] == Jumps(fs + [Fold1(g)])
  {
    hide *;
    FramesSnoc(fs, g);
    JumpsBelow(fs);
    if g.alts == [] {
      NoJumps(start, g.alts);
    } else {
      var rest, a := g.alts[..|g.alts| - 1], g.alts[|g.alts| - 1];
      Fold1Is(g);
      FramesSnoc(fs, Frame(g.reg, rest, Alt(a, g.pre), Eps));
      JumpsIn(start, g.alts);
      assert g.alts == rest + [a];
      AltsSnoc(rest, a, start);
      LastJump(Jumps(fs), FrameJumps(start, rest), start + |AltsCode(g.alts)| - 2);
    }
  }

  lemma LastJump(x: seq<int>, y: seq<int>, j: int)
    ensures var s := x + (y + [j]); |s| > 0 && s[|s| - 1] == j && s[..|s| - 1] == x + y
    ensures (y + [j])[|y|] == j
  {
  }

  lemma NoJumps(start: nat, alts: seq<Re>)
    requires alts == []
    ensures FrameJumps(start, alts) == []
  {
  }

  /** A frame that has been patched completely. */
  lemma Patched(st: State, starts: seq<int>, code0: seq<byte>, jumps0: seq<int>, L: nat, g: Frame, code: seq<byte>,
          jumps: seq<int>, level: nat)
    requires Laid(st, code0, starts, jumps0, L) && level <= 1 && level <= L
    requires g.reg == st.cur.reg && g.alts == [] && g.last.Eps? && Build(g) == Build(st.cur)
    requires code == FramesCode(st.outer + [g]) && jumps == Jumps(st.outer + [g]) && |jumps| <= |jumps0|
    ensures g == Reduce(st.cur)
    ensures Laid(st.(cur := Reduce(st.cur)), code, starts, jumps, level)
  {
    LaidParts(st, code0, starts, jumps0, L);
    assert g == Reduce(st.cur) by { hide FramesCode, Jumps, OuterOk, LevelsOk; }
    hide FramesCode, Jumps, OuterOk, Build, HeadCode, AltsCode, BeforeLast;
    Relay(st, starts, st.(cur := g), code, starts, jumps, level);
  }

  /** Storing an item at level 4. */
  lemma LaidShift(st: State, code: seq<byte>, starts: seq<int>, jumps: seq<int>, item: Re, st': State)
    requires Laid(st, code, starts, jumps, 4) && st'.outer == st.outer && st'.cur == Shift(st.cur, item)
    ensures 5 * |st.outer| + 4 < |starts| && Laid(st', code + Gen(item), starts[5 * |st.outer| + 4 := |code|], jumps, 4)
  {
    hide *;
    LaidParts(st, code, starts, jumps, 4);
    FramesSnoc(st.outer, st.cur);
    FramesSnoc(st.outer, st'.cur);
    ShiftFrame(st.cur, item);
    ShiftCode(st.cur, item);
    var b := 5 * |st.outer|;
    assert FramesCode(st.outer) + FrameCode(st.cur) + Gen(item) == FramesCode(st.outer)
      + (FrameCode(st.cur) + Gen(item));
    ShiftLevels(st.cur, starts, b, |FramesCode(st.outer)|, item);
    Relay(st, starts, st', code + Gen(item), starts[b + 4 := |code|], jumps, 4);
  }

  lemma ShiftFrame(f: Frame, item: Re)
    ensures Shift(f, item).reg == f.reg && Shift(f, item).alts == f.alts
  {
  }

  lemma ShiftLevels(f: Frame, starts: seq<int>, b: nat, o: nat, item: Re)
    requires LevelsOk(f, starts, b, o, 4)
    ensures b + 5 <= |starts| && LevelsOk(Shift(f, item), starts[b + 4 := o + |FrameCode(f)|], b, o, 4)
  {
    hide HeadCode, AltsCode, BeforeLast, FrameCode;
    BeforeShift(f, item);
  }

  lemma BeforeShift(f: Frame, item: Re)
    ensures BeforeLast(Shift(f, item)) == FrameCode(f)
  {
    hide Gen, AltsCode, HeadCode;
    GenSnoc(f.pre, f.last);
  }

  /** Storing an item at level 3: no postfix operator applies to it. */
  lemma LaidShift3(st: State, code: seq<byte>, starts: seq<int>, jumps: seq<int>, item: Re, st': State)
    requires Laid(st, code, starts, jumps, 3) && st'.outer == st.outer && st'.cur == Merge(Shift(st.cur, item))
    ensures 5 * |st.outer| + 3 < |starts| && Laid(st', code + Gen(item), starts[5 * |st.outer| + 3 := |code|], jumps, 3)
  {
    hide *;
    LaidParts(st, code, starts, jumps, 3);
    FramesSnoc(st.outer, st.cur);
    FramesSnoc(st.outer, st'.cur);
    ShiftFrame(st.cur, item);
    ShiftCode(st.cur, item);
    MergeFrame(Shift(st.cur, item));
    var b := 5 * |st.outer|;
    assert FramesCode(st.outer) + FrameCode(st.cur) + Gen(item) == FramesCode(st.outer)
      + (FrameCode(st.cur) + Gen(item));
    Shift3Levels(st.cur, starts, b, |FramesCode(st.outer)|, item);
    Relay(st, starts, st', code + Gen(item), starts[b + 3 := |code|], jumps, 3);
  }

  lemma Shift3Levels(f: Frame, starts: seq<int>, b: nat, o: nat, item: Re)
    requires LevelsOk(f, starts, b, o, 3)
    ensures b + 5 <= |starts| && LevelsOk(Merge(Shift(f, item)), starts[b + 3 := o + |FrameCode(f)|], b, o, 3)
  {
    hide HeadCode, AltsCode, BeforeLast, FrameCode, Gen, Snoc;
    FrameLength(f);
  }

  lemma FrameLength(f: Frame)
    ensures |FrameCode(f)| >= |HeadCode(f.reg)| + |AltsCode(f.alts)|
    ensures |FrameCode(f)| == |BeforeLast(f)| + Len(f.last)
  {
    hide HeadCode, AltsCode;
  }

  /** A postfix operator, whose jumps go in front of the last item. */
  lemma LaidApply(st: State, code: seq<byte>, starts: seq<int>, jumps: seq<int>, op: byte, st': State)
    requires Laid(st, code, starts, jumps, 4) && st'.outer == st.outer && st'.cur == Apply(st.cur, op)
    requires op == STAR || op == PLUS || op == QUESTION
    ensures 5 * |st.outer| + 4 < |starts|
    ensures var s := starts[5 * |st.outer| + 4];
            0 <= s <= |code| && (Len(st.cur.last) == 0 <==> s == |code|)
            && Laid(st', if s == |code| then code else code[..s] + PostfixCode(op, code[s..]), starts, jumps, 4)
  {
    hide *;
    var b, o, f := 5 * |st.outer|, |FramesCode(st.outer)|, st.cur;
    LaidParts(st, code, starts, jumps, 4);
    ApplyFrame(f, op);
    ApplyLevels(f, starts, b, o, op);
    SameJumps(st.outer, f, Apply(f, op));
    FramesSnoc(st.outer, f);
    FrameLength(f);
    if Len(f.last) > 0 { ApplyBytes(st.outer, f, op, code); }
    var s := starts[b + 4];
    Relay(st, starts, st', if s == |code| then code else code[..s] + PostfixCode(op, code[s..]), starts, jumps, 4);
  }

  lemma ApplyBytes(fs: seq<Frame>, f: Frame, op: byte, code: seq<byte>)
    requires code == FramesCode(fs + [f]) && Len(f.last) > 0 && (op == STAR || op == PLUS || op == QUESTION)
    ensures |FramesCode(fs)| + |BeforeLast(f)| < |code|
    ensures var s := |FramesCode(fs)| + |BeforeLast(f)|;
      FramesCode(fs + [Apply(f, op)]) == code[..s] + PostfixCode(op, code[s..])
  {
    hide *;
    var g := Apply(f, op);
    var p, x, y := FramesCode(fs), BeforeLast(f), Gen(f.last);
    var z := PostfixCode(op, y);
    FramesSnoc(fs, f);
    FramesSnoc(fs, g);
    FrameLength(f);
    ApplyCode(f, op);
    assert code == p + (x + y) && FramesCode(fs + [g]) == p + (x + z);
    assert |x + y| == |x| + |y|;
    LastBytes(p, x, y, z, code, FramesCode(fs + [g]));
    assert code[|p| + |x|..] == y;
  }

  lemma LastBytes(p: seq<byte>, x: seq<byte>, y: seq<byte>, z: seq<byte>, code: seq<byte>, code': seq<byte>)
    requires code == p + (x + y) && code' == p + (x + z)
    ensures |code| == |p| + |x| + |y|
    ensures code[|p| + |x|..] == y && code' == code[..|p| + |x|] + z
  {
  }

  lemma ApplyFrame(f: Frame, op: byte)
    ensures Apply(f, op).reg == f.reg && Apply(f, op).alts == f.alts && Apply(f, op).pre == f.pre
    ensures Len(f.last) == 0 ==> Apply(f, op) == f
  {
  }

  lemma ApplyLevels(f: Frame, starts: seq<int>, b: nat, o: nat, op: byte)
    requires LevelsOk(f, starts, b, o, 4)
    ensures b + 5 <= |starts| && starts[b + 4] == o + |BeforeLast(f)| && LevelsOk(Apply(f, op), starts, b, o, 4)
  {
    hide HeadCode, AltsCode;
  }

  /** `\|` at level 2: a failure jump goes in front of the alternative, and behind it a jump that waits
      to be patched. */
  lemma LaidBar(st: State, code: seq<byte>, starts: seq<int>, jumps: seq<int>, st': State)
    requires Laid(st, code, starts, jumps, 2) && st'.outer == st.outer && |jumps| < MAX_NESTING
    requires st'.cur == Frame(st.cur.reg, st.cur.alts + [Snoc(st.cur.pre, st.cur.last)], Eps, Eps)
    ensures 5 * |st.outer| + 2 < |starts| && 0 <= starts[5 * |st.outer| + 2] <= |code|
    ensures var b := 5 * |st.outer|;
            var s := starts[b + 2];
            var code' := code[..s] + JumpCode(C_FAILURE_JUMP, |code| - s + 3) + code[s..] + [C_JUMP, 0, 0];
            Laid(st', code', starts[b + 2 := |code'|], jumps + [|code'| - 2], 2)
  {
    hide *;
    var b, o, f := 5 * |st.outer|, |FramesCode(st.outer)|, st.cur;
    LaidParts(st, code, starts, jumps, 2);
    BarCode(st.outer, f);
    var a := Snoc(f.pre, f.last);
    var front := FramesCode(st.outer) + HeadCode(f.reg) + AltsCode(f.alts);
    GenLength(a);
    var code' := front + JumpCode(C_FAILURE_JUMP, Len(a) + 3) + Gen(a) + [C_JUMP, 0, 0];
    BarBytes(front, Gen(a), code, JumpCode(C_FAILURE_JUMP, Len(a) + 3), code');
    BarLevels(f, starts, b, o, st'.cur, |code'|);
    Relay(st, starts, st', code', starts[b + 2 := |code'|], jumps + [|code'| - 2], 2);
  }

  lemma BarBytes(front: seq<byte>, x: seq<byte>, code: seq<byte>, jump: seq<byte>, code': seq<byte>)
    requires code == front + x && code' == front + jump + x + [C_JUMP, 0, 0]
    ensures |front| <= |code| && |code| - |front| == |x| && |code'| == |front| + |jump| + |x| + 3
    ensures code' == code[..|front|] + jump + code[|front|..] + [C_JUMP, 0, 0]
  {
  }

  lemma BarLevels(f: Frame, starts: seq<int>, b: nat, o: nat, g: Frame, n: nat)
    requires LevelsOk(f, starts, b, o, 2) && g.reg == f.reg && g.last.Eps?
      && n == o + |HeadCode(g.reg)| + |AltsCode(g.alts)|
    ensures b + 5 <= |starts| && starts[b + 2] == o + |HeadCode(f.reg)| + |AltsCode(f.alts)|
    ensures LevelsOk(g, starts[b + 2 := n], b, o, 2)
  {
    hide HeadCode, AltsCode, BeforeLast;
  }

  /** `\(`: the frame so far is set aside and a new one begins. */
  lemma LaidOpen(st: State, code: seq<byte>, starts: seq<int>, jumps: seq<int>, reg: byte, st': State,
          starts': seq<int>)
    requires Laid(st, code, starts, jumps, 4) && |st.outer| < MAX_NESTING - 1
    requires st'.outer == st.outer + [Merge(st.cur)] && st'.cur == Frame(reg, [], Eps, Eps)
    requires |starts| == 5 * MAX_NESTING
      && starts' == starts[5 * |st.outer| + 4 := |code|][5 * |st.outer| + 5 := |code| + |HeadCode(reg)|]
    ensures Laid(st', code + HeadCode(reg), starts', jumps, 0)
  {
    hide *;
    var b, o, f := 5 * |st.outer|, |FramesCode(st.outer)|, st.cur;
    LaidParts(st, code, starts, jumps, 4);
    FramesSnoc(st.outer, f);
    FramesSnoc(st.outer, Merge(f));
    MergeFrame(f);
    FramesSnoc(st'.outer, st'.cur);
    FreshFrame(reg, |code| + |HeadCode(reg)|);
    OpenLevels(f, starts, b, o, starts');
    OuterPush(st.outer, Merge(f), starts, starts');
    FreshLevels(st'.cur, starts', b + 5, |code|);
    LaidIntro(st', code + HeadCode(reg), starts', jumps, 0);
  }

  lemma LaidIntro(st: State, code: seq<byte>, starts: seq<int>, jumps: seq<int>, L: nat)
    requires OuterOk(st.outer, starts) && |starts| == 5 * MAX_NESTING && |st.outer| < MAX_NESTING
      && |jumps| <= MAX_NESTING
    requires code == FramesCode(st.outer + [st.cur]) && jumps == Jumps(st.outer + [st.cur])
    requires LevelsOk(st.cur, starts, 5 * |st.outer|, |FramesCode(st.outer)|, L)
    ensures Laid(st, code, starts, jumps, L)
  {
    hide LevelsOk, OuterOk, FramesCode, Jumps;
  }

  lemma FreshFrame(reg: byte, n: nat)
    ensures FrameCode(Frame(reg, [], Eps, Eps)) == HeadCode(reg) && FrameJumps(n, []) == []
  {
    hide HeadCode;
  }

  lemma FreshLevels(f: Frame, starts: seq<int>, b: nat, o: nat)
    requires f.alts == [] && f.last.Eps? && b + 5 <= |starts| && starts[b] == o + |HeadCode(f.reg)|
    ensures LevelsOk(f, starts, b, o, 0)
  {
    hide HeadCode, AltsCode, BeforeLast;
  }

  lemma OpenLevels(f: Frame, starts: seq<int>, b: nat, o: nat, starts': seq<int>)
    requires LevelsOk(f, starts, b, o, 4) && |starts'| == |starts|
    requires forall k :: b <= k < b + 4 ==> starts'[k] == starts[k]
    requires starts'[b + 4] == o + |FrameCode(f)|
    ensures LevelsOk(Merge(f), starts', b, o, 4)
  {
    hide HeadCode, AltsCode, BeforeLast, FrameCode, Snoc;
    MergeCode(f);
    FrameLength(Merge(f));
  }

  lemma OuterPush(fs: seq<Frame>, f: Frame, starts: seq<int>, starts': seq<int>)
    requires OuterOk(fs, starts) && |starts'| == |starts| && forall k :: 0 <= k < 5 * |fs| ==> starts'[k] == starts[k]
    requires f.last.Eps? && LevelsOk(f, starts', 5 * |fs|, |FramesCode(fs)|, 4)
    ensures OuterOk(fs + [f], starts')
  {
    assert 5 * |fs| + 5 <= |starts'| by { hide HeadCode, AltsCode, BeforeLast, FramesCode; }
    hide LevelsOk, FramesCode;
    SameOuter(fs, starts, starts');
    forall k | 0 <= k < |fs| + 1 ensures (fs + [f])[k].last.Eps?
      && LevelsOk((fs + [f])[k], starts', 5 * k, |FramesCode((fs + [f])[..k])|, 4) {
      assert (fs + [f])[..k] == if k < |fs| then fs[..k] else fs;
    }
  }

  lemma OuterPop(fs: seq<Frame>, f: Frame, starts: seq<int>)
    requires OuterOk(fs + [f], starts)
    ensures OuterOk(fs, starts) && f.last.Eps? && LevelsOk(f, starts, 5 * |fs|, |FramesCode(fs)|, 4)
  {
    hide LevelsOk, FramesCode;
    var all := fs + [f];
    assert all[..|fs|] == fs && all[|fs|] == f;
    forall k | 0 <= k < |fs| ensures fs[k].last.Eps? && LevelsOk(fs[k], starts, 5 * k, |FramesCode(fs[..k])|, 4) {
      assert all[..k] == fs[..k] && all[k] == fs[k];
    }
  }

  /** `\)`: the patched frame becomes the last item of the one around it. */
  lemma LaidClose(st: State, code: seq<byte>, starts: seq<int>, jumps: seq<int>, L: nat, st': State)
    requires Laid(st, code, starts, jumps, L) && st.outer != [] && st.cur.alts == [] && st.cur.last.Eps?
    requires st'.outer == st.outer[..|st.outer| - 1]
    requires st'.cur == st.outer[|st.outer| - 1].(last := Group(st.cur.reg, st.cur.pre))
    ensures Laid(st', code + (if st.cur.reg == 0 then [] else [C_END_MEMORY, st.cur.reg]), starts, jumps, 4)
  {
    hide *;
    var fs, outer, f := st'.outer, st.outer[|st.outer| - 1], st.cur;
    LaidParts(st, code, starts, jumps, L);
    assert st.outer == fs + [outer];
    OuterPop(fs, outer, starts);
    CloseCode(fs, outer, f);
    CloseLevels(outer, starts, 5 * |fs|, |FramesCode(fs)|, st'.cur.last);
    LaidIntro(st', code + (if f.reg == 0 then [] else [C_END_MEMORY, f.reg]), starts, jumps, 4);
  }

  lemma CloseLevels(f: Frame, starts: seq<int>, b: nat, o: nat, last: Re)
    requires LevelsOk(f, starts, b, o, 4)
    ensures LevelsOk(f.(last := last), starts, b, o, 4)
  {
    hide HeadCode, AltsCode;
  }

  /** The end of the pattern. */
  lemma LaidFinish(st: State, code: seq<byte>, starts: seq<int>, jumps: seq<int>, L: nat)
    requires Laid(st, code, starts, jumps, L) && st.outer == [] && st.cur.alts == [] && st.cur.last.Eps?
      && st.cur.reg == 0
    ensures code == Gen(st.cur.pre) && jumps == []
  {
    hide *;
    LaidParts(st, code, starts, jumps, L);
    FramesSnoc([], st.cur);
    NoFrames();
    FrameIs(st.cur);
    NoAlts(st.cur);
    NoJumps(0, st.cur.alts);
  }

  lemma NoFrames()
    ensures FramesCode([]) == [] && Jumps([]) == [] && HeadCode(0) == []
  {
  }
}
