/** The compiled pattern as the matcher uses it: a byte buffer that the matcher itself rewrites, and
    the first-character map and anchor that speed up searching. */
module RegexMatcher {
  import opened RegexSyntax
  import opened RegexProgram
  import opened RegexStructure
  import opened RegexBacktrack
  import opened RegexFirst
  import opened RegexMachine
  import opened RegexRuns
  import opened RegexCode
  import opened RegexFastmap

  /** The program of re before anything has been rewritten. */
  function Pristine(re: Re): Program {
    Decode(Compile(re))
  }

  // ----- rewriting one star jump in the bytes -----

  /** The bytes that decide what is decoded at pc. */
  function Extent(code: seq<byte>, pc: nat): nat
    requires pc < |code|
  {
    var op := code[pc];
    if op == C_SET then 33
    else if op == C_DUMMY_FAILURE_JUMP then 6
    else if IsJumpOp(op) then 3
    else if op == C_END || op == C_ANYCHAR || IsTestOp(op) then 1
    else 2
  }

  lemma AtSame(code: seq<byte>, code': seq<byte>, pc: nat)
    requires pc < |code| == |code'|
    requires forall k :: pc <= k < pc + Extent(code, pc) && k < |code| ==> code'[k] == code[k]
    ensures At(code', pc) == At(code, pc)
  {
    if code[pc] == C_SET && pc + 33 <= |code| {
      assert code[pc + 1..pc + 33] == code'[pc + 1..pc + 33];
    }
  }

  /** What is decoded at an instruction start does not depend on the bytes of a star jump elsewhere. */
  lemma ExtentClear(p: Program, S: set<int>, code: seq<byte>, pc: int, s: int)
    requires Sound(p, S) && Rewritten(p, S, Decode(code)) && pc in S && s in S && pc != s
    requires 0 <= s < |p| && p[s].StarJump?
    ensures 0 <= pc < |code| && (pc + Extent(code, pc) <= s || s + 3 <= pc)
  {
    hide Sound, Rewritten, Updatable, At, Extent;
    SoundAt(p, S, pc);
    SoundAt(p, S, s);
    ExtentIs(p, S, code, pc);
    SoundScan(p, S, pc, s);
    if s < pc {
      NoOverlap(p, 0, s, pc);
    } else {
      NoOverlap(p, 0, pc, s);
      if p[pc].Dummy? {
        SoundScan(p, S, pc + 3, s);
        NoOverlap(p, 0, pc + 3, s);
      }
    }
  }

  lemma SoundScan(p: Program, S: set<int>, x: int, y: int)
    requires Sound(p, S) && x in S && y in S
    ensures Boundary(p, 0, x) && Boundary(p, 0, y)
  {
    hide WellFormed, AllGuarded, Boundary;
  }

  lemma ExtentIs(p: Program, S: set<int>, code: seq<byte>, pc: int)
    requires Sound(p, S) && Rewritten(p, S, Decode(code)) && pc in S
    ensures 0 <= pc < |code| == |p| && Extent(code, pc) == (if p[pc].Dummy? then 6 else Size(p, pc))
  {
    hide Sound, Rewritten, Updatable;
    SoundAt(p, S, pc);
    RewrittenAt(p, S, Decode(code), pc);
  }

  lemma RewriteOne(p: Program, S: set<int>, code: seq<byte>, code': seq<byte>, s: int)
    requires Sound(p, S) && Rewritten(p, S, Decode(code)) && s in S && 0 <= s < |p| && p[s].StarJump?
    requires |code'| == |code| && forall k :: 0 <= k < |code| && !(s <= k < s + 3) ==> code'[k] == code[k]
    requires |Decode(code')| == |p| && SameOrRewritten(p, S, Decode(code'), s)
    ensures Rewritten(p, S, Decode(code'))
  {
    forall pc | pc in S && 0 <= pc < |p|
      ensures SameOrRewritten(p, S, Decode(code'), pc)
    {
      hide Sound, Rewritten, Updatable, At, Extent;
      RewrittenAt(p, S, Decode(code), pc);
      if pc != s {
        ExtentClear(p, S, code, pc, s);
        AtSame(code, code', pc);
      }
    }
  }

  ghost predicate StarUpdates(p: Program, S: set<int>, s: int) {
    exists cl :: MayUpdate(p, S, s, cl)
  }

  /** What the opcode at an instruction start says about the pristine program. */
  lemma OpAt(p: Program, S: set<int>, code: seq<byte>, pc: int)
    requires Sound(p, S) && Rewritten(p, S, Decode(code)) && pc in S
    ensures 0 <= pc < |code| == |p| && LocalOk(p, S, pc)
    ensures code[pc] == C_END <==> p[pc].End?
    ensures IsTestOp(code[pc]) <==> p[pc].Test?
    ensures code[pc] == C_START_MEMORY || code[pc] == C_END_MEMORY <==> p[pc].Mem?
    ensures IsJumpOp(code[pc]) <==> p[pc].Fork? || p[pc].Dummy? || p[pc].StarJump? || p[pc].Jump?
    ensures IsJumpOp(code[pc]) ==> pc + 2 < |code|
    ensures p[pc].Fork? || p[pc].Dummy? || p[pc].Jump? || Plain(p[pc]) || p[pc].End? ==> At(code, pc) == p[pc]
    ensures code[pc] == C_STAR_JUMP ==> p[pc].StarJump? && TargetAt(code, pc) == p[pc].next
    ensures p[pc].StarJump? ==> code[pc] == C_STAR_JUMP || code[pc] == C_JUMP || code[pc] == C_UPDATE_FAILURE_JUMP
  {
    hide Sound, Rewritten, Updatable, LocalOk;
    SoundAt(p, S, pc);
    RewrittenAt(p, S, Decode(code), pc);
  }

  function PlainSize(op: byte): nat {
    if op == C_SET then 33 else if IsTestOp(op) || op == C_ANYCHAR then 1 else 2
  }

  ghost predicate PlainUpTo(p: Program, S: set<int>, b: int, x: int) {
    forall y :: y in S && b <= y < x ==> 0 <= y < |p| && Plain(p[y])
  }

  /** One plain instruction of a loop body is skipped. */
  lemma SkipPlain(p: Program, S: set<int>, code: seq<byte>, b: int, x: int, s: int)
    requires Sound(p, S) && Rewritten(p, S, Decode(code)) && x in S && s in S && b <= x <= s
    requires 0 <= s < |p| && p[s].StarJump? && PlainUpTo(p, S, b, x)
    requires 0 <= x < |p| && Plain(p[x])
    ensures x < |code| && p[x].next == x + PlainSize(code[x]) <= s && p[x].next in S
    ensures PlainUpTo(p, S, b, p[x].next)
  {
    hide Rewritten;
    OpAt(p, S, code, x);
    NoOverlap(p, 0, x, s);
    forall y | y in S && b <= y < p[x].next ensures 0 <= y < |p| && Plain(p[y]) {
      if x < y {
        OpAt'(p, S, y);
        NoOverlap(p, 0, x, y);
      }
    }
  }

  lemma OpAt'(p: Program, S: set<int>, pc: int)
    requires Sound(p, S) && pc in S
    ensures 0 <= pc < |p|
  {
    SoundAt(p, S, pc);
  }

  lemma LoopBody(p: Program, S: set<int>, s: int)
    requires Sound(p, S) && s in S && 0 <= s < |p| && p[s].StarJump?
    ensures p[s].next + 3 in S && 0 <= p[s].next + 3 <= s && PlainUpTo(p, S, p[s].next + 3, p[s].next + 3)
  {
    SoundAt(p, S, s);
  }

  /** What ScanLoop looks for. */
  ghost predicate LoopAvoids(p: Program, S: set<int>, s: int, firsts: seq<bool>)
    requires |firsts| == 256
  {
    exists cl :: SimpleLoop(p, S, s, cl) && !cl.Syntax? && !cl.NotSyntax? && forall c: byte :: Accepts(cl, c) ==>
      !firsts[c]
  }

  lemma EaterHere(p: Program, S: set<int>, code: seq<byte>, x: int)
    requires Sound(p, S) && Rewritten(p, S, Decode(code)) && x in S && 0 <= x < |code|
    requires code[x] == C_EXACT || code[x] == C_ANYCHAR || code[x] == C_SET
    ensures x < |p| && p[x].Eat? && EaterAt(p, x) == x && !p[x].cl.Syntax? && !p[x].cl.NotSyntax?
    ensures code[x] == C_EXACT ==> x + 1 < |code| && p[x].cl == Exact(code[x + 1])
    ensures code[x] == C_ANYCHAR ==> p[x].cl == AnyChar
    ensures code[x] == C_SET ==> x + 33 <= |code| && p[x].cl == InSet(Members(code[x + 1..x + 33]))
  {
    OpAt(p, S, code, x);
  }

  lemma NotAvoided(p: Program, S: set<int>, s: int, x: int, firsts: seq<bool>, c: byte)
    requires |firsts| == 256 && firsts[c] && 0 <= s < |p| && p[s].StarJump? && 0 <= x < |p|
    requires EaterAt(p, p[s].next + 3) == x && p[x].Eat? && Accepts(p[x].cl, c)
    ensures !LoopAvoids(p, S, s, firsts)
  {
  }

  lemma NoEater(p: Program, S: set<int>, code: seq<byte>, s: int, x: int, firsts: seq<bool>)
    requires Sound(p, S) && Rewritten(p, S, Decode(code)) && x in S && 0 <= x < |code|
    requires |firsts| == 256 && 0 <= s < |p| && p[s].StarJump? && EaterAt(p, p[s].next + 3) == EaterAt(p, x)
    requires !IsTestOp(code[x]) && code[x] != C_START_MEMORY && code[x] != C_END_MEMORY
    requires code[x] != C_EXACT && code[x] != C_ANYCHAR && code[x] != C_SET
    ensures !LoopAvoids(p, S, s, firsts)
  {
    OpAt(p, S, code, x);
  }

  lemma NotStraight(p: Program, S: set<int>, s: int, x: int, firsts: seq<bool>)
    requires |firsts| == 256 && x in S && 0 <= x < s < |p| && p[s].StarJump? && p[s].next + 3 <= x && !Plain(p[x])
    ensures !LoopAvoids(p, S, s, firsts)
  {
  }

  lemma EndOnlyLast(p: Program, S: set<int>, x: int, s: int)
    requires Sound(p, S) && x in S && s in S && x < s
    ensures 0 <= x < |p| && !p[x].End?
  {
    SoundAt(p, S, x);
  }

  lemma Avoided(p: Program, S: set<int>, s: int, x: int, firsts: seq<bool>)
    requires |firsts| == 256 && s in S && 0 <= s < |p| && p[s].StarJump? && PlainUpTo(p, S, p[s].next + 3, s)
    requires EaterAt(p, p[s].next + 3) == x && 0 <= x < s && p[x].Eat? && !p[x].cl.Syntax? && !p[x].cl.NotSyntax?
    requires forall c: byte :: Accepts(p[x].cl, c) ==> !firsts[c]
    ensures LoopAvoids(p, S, s, firsts)
  {
    assert SimpleLoop(p, S, s, p[x].cl);
  }

  /** The scan of the loop body that decides how to rewrite its star jump: leading zero-width
      operators and group marks are skipped, the first consumer must not accept a character of
      `firsts`, and nothing behind it may jump. */
  method ScanLoop(code: seq<byte>, b: nat, s: nat, firsts: array<bool>, ghost p: Program, ghost S: set<int>)
      returns (update: bool)
    requires Sound(p, S) && Rewritten(p, S, Decode(code)) && firsts.Length == 256
    requires s in S && s < |p| && p[s].StarJump? && p[s].next + 3 == b
    ensures update <==> LoopAvoids(p, S, s, firsts[..])
  {
    hide Sound, Rewritten, Accepts, LocalOk, PlainUpTo, At, Decode, LoopAvoids, SimpleLoop, EaterAt, Members;
    LoopBody(p, S, s);
    var p1 := b;
    OpAt(p, S, code, p1);
    while IsTestOp(code[p1]) || code[p1] == C_START_MEMORY || code[p1] == C_END_MEMORY
      invariant p1 in S && b <= p1 <= s && p1 < |code| == |p|
      invariant PlainUpTo(p, S, b, p1) && EaterAt(p, b) == EaterAt(p, p1)
      decreases s - p1
    {
      OpAt(p, S, code, p1);
      SkipPlain(p, S, code, b, p1, s);
      EaterNext(p, p1);
      p1 := p1 + PlainSize(code[p1]);
      OpAt(p, S, code, p1);
    }
    ghost var x := p1;
    if code[p1] != C_EXACT && code[p1] != C_ANYCHAR && code[p1] != C_SET {
      NoEater(p, S, code, s, p1, firsts[..]);
      return false;
    }
    EaterHere(p, S, code, p1);
    var cl := if code[p1] == C_EXACT then Exact(code[p1 + 1])
              else if code[p1] == C_ANYCHAR then AnyChar
              else InSet(Members(code[p1 + 1..p1 + 33]));
    for c := 0 to 256
      invariant forall d: byte :: d < c && Accepts(cl, d) ==> !firsts[d]
    {
      if Accepts(cl, c) && firsts[c] {
        NotAvoided(p, S, s, x, firsts[..], c);
        return false;
      }
    }
    SkipPlain(p, S, code, b, p1, s);
    p1 := p1 + PlainSize(code[p1]);
    while p1 != s
      invariant p1 in S && x < p1 && b <= p1 <= s
      invariant PlainUpTo(p, S, b, p1)
      decreases s - p1
    {
      OpAt(p, S, code, p1);
      if IsJumpOp(code[p1]) {
        NotStraight(p, S, s, p1, firsts[..]);
        return false;
      }
      EndOnlyLast(p, S, p1, s);
      LocalPlain(p, S, p1);
      SkipPlain(p, S, code, b, p1, s);
      p1 := p1 + PlainSize(code[p1]);
    }
    Avoided(p, S, s, x, firsts[..]);
    return true;
  }

  lemma EaterNext(p: Program, x: int)
    requires 0 <= x < |p| && (p[x].Test? || p[x].Mem?) && x < p[x].next
    ensures EaterAt(p, x) == EaterAt(p, p[x].next)
  {
  }

  lemma LocalPlain(p: Program, S: set<int>, x: int)
    requires Sound(p, S) && x in S
    ensures 0 <= x < |p|
    ensures Plain(p[x]) || p[x].End? || p[x].Fork? || p[x].Dummy? || p[x].Jump? || p[x].StarJump?
  {
    SoundAt(p, S, x);
  }

  // ----- what all star jumps become -----

  /** What the matcher makes of the instruction at pc when it first meets it. */
  ghost function SettledAt(p: Program, S: set<int>, pc: int): Instr
    requires 0 <= pc < |p|
  {
    if pc in S && p[pc].StarJump? then if StarUpdates(p, S, pc) then UpdateJump(p[pc].next + 3) else Jump(p[pc].next)
    else p[pc]
  }

  ghost function Settled(p: Program, S: set<int>): (q: Program)
    ensures |q| == |p|
  {
    seq(|p|, pc requires 0 <= pc < |p| => SettledAt(p, S, pc))
  }

  /** Some star jumps of p have become what they are going to be. */
  ghost predicate Settling(p: Program, S: set<int>, q: Program) {
    |q| == |p| && forall pc :: pc in S && 0 <= pc < |p| ==> q[pc] == p[pc] || q[pc] == SettledAt(p, S, pc)
  }

  lemma SettlingRefl(p: Program, S: set<int>)
    ensures Settling(p, S, p)
  {
    hide SettledAt;
  }

  lemma SettlingOne(p: Program, S: set<int>, code: seq<byte>, code': seq<byte>, s: int)
    requires Sound(p, S) && Rewritten(p, S, Decode(code)) && Settling(p, S, Decode(code)) && s in S && 0 <= s < |p|
      && p[s].StarJump?
    requires |code'| == |code| && forall k :: 0 <= k < |code| && !(s <= k < s + 3) ==> code'[k] == code[k]
    requires |Decode(code')| == |p| && Decode(code')[s] == SettledAt(p, S, s)
    ensures Settling(p, S, Decode(code'))
  {
    hide Sound, Rewritten, SettledAt, At, Extent;
    forall pc | pc in S && 0 <= pc < |p|
      ensures Decode(code')[pc] == p[pc] || Decode(code')[pc] == SettledAt(p, S, pc)
    {
      if pc != s {
        ExtentClear(p, S, code, pc, s);
        AtSame(code, code', pc);
      }
    }
  }

  /** The next step on the code as it is now is the next step on the settled code, except at a star
      jump that has not been rewritten yet. */
  lemma StepSettled(p: Program, S: set<int>, q: Program, text: seq<byte>, c: Config)
    requires Settling(p, S, q) && c.pc in S && 0 <= c.pc < |p| && c.t <= |text|
    requires |q| == |p| && !q[c.pc].StarJump?
    ensures Step(Settled(p, S), text, c) == Step(q, text, c)
  {
    hide Resume, StarUpdates;
    assert Settled(p, S)[c.pc] == SettledAt(p, S, c.pc);
  }

  // ----- the assertions of the matcher -----

  /** Whatever has been rewritten, a star jump leads back to a failure jump, and a dummy failure jump
      stands before one. */
  lemma AssertionsHold(p: Program, S: set<int>, code: seq<byte>, pc: int)
    requires Sound(p, S) && Rewritten(p, S, Decode(code)) && pc in S
    ensures 0 <= pc < |code|
    ensures code[pc] == C_STAR_JUMP ==>
      pc + 2 < |code| && 0 <= TargetAt(code, pc) < pc && code[TargetAt(code, pc)] == C_FAILURE_JUMP
    ensures code[pc] == C_DUMMY_FAILURE_JUMP ==> pc + 3 < |code| && code[pc + 3] == C_FAILURE_JUMP
  {
    hide Sound, Rewritten, At;
    OpAt(p, S, code, pc);
    if code[pc] == C_STAR_JUMP {
      LoopHead(p, S, pc);
      OpAt(p, S, code, p[pc].next);
      ForkIsFailureJump(code, p[pc].next);
    } else if code[pc] == C_DUMMY_FAILURE_JUMP {
      DummyNeedsFork(code, pc);
    }
  }

  lemma LoopHead(p: Program, S: set<int>, s: int)
    requires Sound(p, S) && s in S && 0 <= s < |p| && p[s].StarJump?
    ensures p[s].next in S && 0 <= p[s].next < s && p[p[s].next].Fork?
  {
    SoundAt(p, S, s);
  }

  lemma ForkIsFailureJump(code: seq<byte>, pc: nat)
    requires pc < |code| && At(code, pc).Fork?
    ensures code[pc] == C_FAILURE_JUMP
  {
  }

  lemma DummyNeedsFork(code: seq<byte>, pc: nat)
    requires pc < |code| && code[pc] == C_DUMMY_FAILURE_JUMP && !At(code, pc).Bad?
    ensures pc + 3 < |code| && code[pc + 3] == C_FAILURE_JUMP
  {
  }

  // ----- rewriting a star jump where it is met -----

  /** The code of re, with some of its star jumps rewritten. */
  ghost predicate CodeOk(re: Re, code: seq<byte>) {
    && NoBackref(re) && Encodable(re)
    && Rewritten(Pristine(re), AllStarts(re), Decode(code)) && Settling(Pristine(re), AllStarts(re), Decode(code))
  }

  lemma PristineSound(re: Re)
    requires NoBackref(re) && Encodable(re)
    ensures Compiled(Pristine(re), re) && 0 in AllStarts(re) && Sound(Pristine(re), AllStarts(re))
    ensures |Pristine(re)| == Len(re) + 1 && Len(re) in AllStarts(re)
  {
    hide Compiled, Sound, Starts, NoBackref, Encodable, Decode, Gen;
    CompileFits(re);
    CompiledSound(Pristine(re), re);
    PristineLength(re);
  }

  lemma PristineLength(re: Re)
    ensures |Pristine(re)| == Len(re) + 1
  {
  }

  lemma CompiledCodeOk(re: Re)
    requires NoBackref(re) && Encodable(re)
    ensures CodeOk(re, Compile(re))
  {
    hide Compile, Decode, NoBackref, Encodable, AllStarts, Settling;
    SettlingRefl(Pristine(re), AllStarts(re));
  }

  lemma CodeLength(re: Re, code: seq<byte>)
    requires CodeOk(re, code)
    ensures |code| == Len(re) + 1
  {
    hide NoBackref, Encodable, Decode, AllStarts, SameOrRewritten, Settling;
    PristineLength(re);
  }

  /** What the scan has found is that the loop may be updated. */
  lemma AvoidsUpdates(p: Program, S: set<int>, q: Program, s: int, firsts: seq<bool>)
    requires Sound(p, S) && Rewritten(p, S, q) && s in S && 0 <= s < |p| && p[s].StarJump? && |firsts| == 256
    requires forall c: byte :: firsts[c] <==> CanOpen(q, s + 3, Char(c))
    ensures LoopAvoids(p, S, s, firsts) <==> StarUpdates(p, S, s)
    ensures StarUpdates(p, S, s) ==> exists cl :: Updatable(p, S, s, cl)
  {
    hide Sound, Rewritten, SimpleLoop, Accepts, CanOpen, Updatable;
    SoundAt(p, S, s);
    ExitAhead(p, S, p[s].next);
    forall c: byte ensures firsts[c] <==> CanOpen(p, s + 3, Char(c)) { CanOpenSame(p, S, q, s + 3, Char(c)); }
    if LoopAvoids(p, S, s, firsts) {
      var cl :| SimpleLoop(p, S, s, cl) && !cl.Syntax? && !cl.NotSyntax? && forall c: byte :: Accepts(cl, c) ==>
        !firsts[c];
      assert MayUpdate(p, S, s, cl);
    }
    if StarUpdates(p, S, s) {
      var cl :| MayUpdate(p, S, s, cl);
      DisjointForgettable(p, S, s, cl);
      NeverFirst(p, s, cl, firsts);
    }
  }

  lemma NeverFirst(p: Program, s: int, cl: CharClass, firsts: seq<bool>)
    requires |firsts| == 256 && Disjoint(p, s + 3, cl) && forall c: byte :: firsts[c] <==> CanOpen(p, s + 3, Char(c))
    ensures forall c: byte :: Accepts(cl, c) ==> !firsts[c]
  {
    hide CanOpen, Accepts;
  }

  /** The displacement of a star jump fits, and so does that of the update jump made from it. */
  lemma StarTarget(p: Program, S: set<int>, code: seq<byte>, s: int)
    requires Sound(p, S) && Rewritten(p, S, Decode(code)) && s in S && 0 <= s < |code| && code[s] == C_STAR_JUMP
    ensures s < |p| == |code| && p[s].StarJump? && s + 2 < |code|
    ensures p[s].next == TargetAt(code, s) && 0 <= p[s].next && p[s].next + 3 <= s
  {
    hide Sound, Rewritten;
    OpAt(p, S, code, s);
  }

  lemma JumpBytes(code: seq<byte>, s: nat, d: int)
    requires s + 2 < |code| && code[s + 1..s + 3] == Disp(d) && -32768 <= d < 32768
    ensures TargetAt(code, s) == s + 3 + d
  {
    DispSigned(d);
    assert code[s + 1] == code[s + 1..s + 3][0] && code[s + 2] == code[s + 1..s + 3][1];
  }

  /** The star jump at s has been rewritten, and nothing else has. */
  ghost predicate StarRewritten(p: Program, S: set<int>, code: seq<byte>, code': seq<byte>, s: nat) {
    && |code'| == |code| == |p| && s + 2 < |code|
    && (forall k :: 0 <= k < |code| && !(s <= k < s + 3) ==> code'[k] == code[k])
    && p[s].StarJump?
    && At(code', s) == if StarUpdates(p, S, s) then UpdateJump(p[s].next + 3) else Jump(p[s].next)
  }

  lemma StarRewrittenOk(p: Program, S: set<int>, code: seq<byte>, code': seq<byte>, s: nat)
    requires Sound(p, S) && Rewritten(p, S, Decode(code)) && s in S && StarRewritten(p, S, code, code', s)
    requires StarUpdates(p, S, s) ==> exists cl :: Updatable(p, S, s, cl)
    ensures Rewritten(p, S, Decode(code'))
    ensures Settling(p, S, Decode(code)) ==> Settling(p, S, Decode(code'))
  {
    hide Sound, Rewritten, Updatable, StarUpdates, At, Settling;
    RewriteOne(p, S, code, code', s);
    if Settling(p, S, Decode(code)) { SettlingOne(p, S, code, code', s); }
  }

  lemma SetJump(p: Program, S: set<int>, code: seq<byte>, code': seq<byte>, s: nat)
    requires |code'| == |code| == |p| && s + 2 < |code| && code' == code[s := C_JUMP]
    requires p[s].StarJump? && p[s].next == TargetAt(code, s) && !StarUpdates(p, S, s)
    ensures StarRewritten(p, S, code, code', s)
  {
    hide StarUpdates;
  }

  lemma SetUpdate(p: Program, S: set<int>, code: seq<byte>, code': seq<byte>, s: nat)
    requires |code'| == |code| == |p| && s + 2 < |code| && p[s].StarJump? && p[s].next == TargetAt(code, s) <= s
    requires code' == code[..s] + [C_UPDATE_FAILURE_JUMP] + Disp(p[s].next - s) + code[s + 3..] && StarUpdates(p, S, s)
    ensures StarRewritten(p, S, code, code', s)
  {
    hide StarUpdates;
    JumpBytes(code', s, p[s].next - s);
  }

  /** The case Cstar_jump of re_match_2: turns the star jump at s into a plain jump or an update jump. */
  method RewriteStar(buffer: array<byte>, used: nat, s: nat, ghost p: Program, ghost S: set<int>)
    requires used <= buffer.Length && Sound(p, S) && Rewritten(p, S, Decode(buffer[..used]))
    requires s in S && s < used && buffer[s] == C_STAR_JUMP
    modifies buffer
    ensures Rewritten(p, S, Decode(buffer[..used])) && buffer[s] != C_STAR_JUMP
    ensures Settling(p, S, old(Decode(buffer[..used]))) ==> Settling(p, S, Decode(buffer[..used]))
    ensures StarRewritten(p, S, old(buffer[..used]), buffer[..used], s)
    ensures buffer[used..] == old(buffer[used..])
  {
    hide Sound, Rewritten, CanOpen, Updatable, StarUpdates, LoopAvoids, At, Decode, Walkable, TargetAt, StarRewritten,
      Settling;
    ghost var code := buffer[..used];
    AssertionsHold(p, S, code, s);
    StarTarget(p, S, code, s);
    StarExit(p, S, s);
    RewrittenWalkable(p, S, Decode(code));
    var firsts := new bool[256];
    var nul := DoCompileFastmap(buffer[..used], s + 3, firsts, S);
    var a := TargetAt(buffer[..used], s);
    assert buffer[a] == C_FAILURE_JUMP;
    var update := ScanLoop(buffer[..used], a + 3, s, firsts, p, S);
    AvoidsUpdates(p, S, Decode(code), s, firsts[..]);
    if !update {
      buffer[s] := C_JUMP;
      assert buffer[..used] == code[s := C_JUMP];
      SetJump(p, S, code, buffer[..used], s);
    } else {
      var d := Disp(a - s);
      buffer[s], buffer[s + 1], buffer[s + 2] := C_UPDATE_FAILURE_JUMP, d[0], d[1];
      assert buffer[..used] == code[..s] + [C_UPDATE_FAILURE_JUMP] + d + code[s + 3..];
      SetUpdate(p, S, code, buffer[..used], s);
    }
    StarRewrittenOk(p, S, code, buffer[..used], s);
  }

  lemma StarExit(p: Program, S: set<int>, s: int)
    requires Sound(p, S) && s in S && 0 <= s < |p| && p[s].StarJump?
    ensures s + 3 in S
  {
    SoundAt(p, S, s);
  }
}
