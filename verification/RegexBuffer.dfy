/** A compiled pattern as src/regexpr.c keeps it (regexp_t): matching and searching with it.  Matching
    rewrites the pattern's own code, so every method keeps the invariant that the code is still
    that of the pattern, up to harmless rewriting of star jumps. */
module RegexBuffer {
  import opened RegexSyntax
  import opened RegexProgram
  import opened RegexStructure
  import opened RegexBacktrack
  import opened RegexFirst
  import opened RegexMachine
  import opened RegexRuns
  import opened RegexCode
  import opened RegexFastmap
  import opened RegexMatcher
  import opened RegexTables
  import RegexParse
  import RegexCompile

  const INITIAL_FAILURES: nat := 128

  /** Rewriting star jumps while matching loses no match of re. */
  ghost predicate Steady(re: Re) {
    Harmless(Pristine(re), AllStarts(re))
  }

  lemma OnlyEolSteady(re: Re)
    requires NoBackref(re) && Encodable(re) && OnlyEol(re)
    ensures Steady(re)
  {
    hide Compiled, Sound, OnlyEolTests, Harmless, NoBackref, Encodable, OnlyEol, Pristine, AllStarts;
    PristineSound(re);
    CompiledOnlyEol(Pristine(re), re);
    OnlyEolHarmless(Pristine(re), AllStarts(re));
  }

  // ----- runs on a pattern's code -----

  /** The code of re once all its star jumps have been met. */
  ghost function Final(re: Re): Program {
    Settled(Pristine(re), AllStarts(re))
  }

  /** Configuration c can be reached on that code. */
  ghost predicate Reached(re: Re, text: seq<byte>, pos: nat, c: Config) {
    exists n: nat :: Reaches(Final(re), text, Config(0, pos, []), c, n)
  }

  /** The answer o of matching re at pos, whatever has been rewritten before: the machine's answer on
      the settled code. */
  ghost predicate Answer(re: Re, text: seq<byte>, pos: nat, o: Outcome) {
    Answers(Final(re), text, Config(0, pos, []), o)
  }

  /** The matcher may be in configuration c when it matches re at position pos. */
  ghost predicate Running(re: Re, code: seq<byte>, text: seq<byte>, pos: nat, c: Config, born: seq<nat>) {
    && CodeOk(re, code) && pos <= |text|
    && Sound(Pristine(re), AllStarts(re)) && 0 in AllStarts(re)
    && Good(Pristine(re), AllStarts(re), text, pos, c, born)
    && Reached(re, text, pos, c)
  }

  /** Bounds the steps still to come. */
  ghost function RunCost(re: Re, text: seq<byte>, c: Config, born: seq<nat>): nat {
    if c.t <= |text| && |born| == |c.stack| <= MAX_FAILURES then ConfigCost(Pristine(re), text, c, born) else 0
  }

  /** o is the answer to matching re at pos, and it is right. */
  ghost predicate Right(re: Re, text: seq<byte>, pos: nat, o: Outcome) {
    && Compiled(Pristine(re), re) && NoBackref(re) && pos <= |text| && RightAnswer(Pristine(re), re, text, pos, o)
    && Answer(re, text, pos, o)
  }

  lemma RunStart(re: Re, code: seq<byte>, text: seq<byte>, pos: nat)
    requires CodeOk(re, code) && pos <= |text|
    ensures Running(re, code, text, pos, Config(0, pos, []), [])
  {
    hide *;
    assert NoBackref(re) && Encodable(re) by { CodeParts(re, code); }
    PristineSound(re);
    GoodStart(Pristine(re), AllStarts(re), text, pos);
    ReachedStart(re, text, pos);
    RunIntro(re, code, text, pos, Config(0, pos, []), []);
  }

  lemma ReachedStart(re: Re, text: seq<byte>, pos: nat)
    ensures Reached(re, text, pos, Config(0, pos, []))
  {
    hide Step, Final;
    assert Reaches(Final(re), text, Config(0, pos, []), Config(0, pos, []), 0);
  }

  lemma ReachedOn(re: Re, text: seq<byte>, pos: nat, c: Config)
    requires Reached(re, text, pos, c) && 0 <= c.pc < |Final(re)| && c.t <= |text|
    ensures var next := Step(Final(re), text, c);
            if next.Go? then Reached(re, text, pos, next.c) else Answer(re, text, pos, next.o)
  {
    hide Step, Final, Reaches;
    var start := Config(0, pos, []);
    var n: nat :| Reaches(Final(re), text, start, c, n);
    var next := Step(Final(re), text, c);
    if next.Go? {
      OneStep(Final(re), text, c, next.c);
      ReachesOn(Final(re), text, start, c, n, next.c, 1);
    } else {
      assert StopsAt(Final(re), text, c, next.o);
    }
  }

  lemma CodeParts(re: Re, code: seq<byte>)
    requires CodeOk(re, code)
    ensures NoBackref(re) && Encodable(re) && Rewritten(Pristine(re), AllStarts(re), Decode(code))
    ensures Settling(Pristine(re), AllStarts(re), Decode(code))
  {
    hide Rewritten, Settling, Pristine, AllStarts;
  }

  lemma RunIntro(re: Re, code: seq<byte>, text: seq<byte>, pos: nat, c: Config, born: seq<nat>)
    requires CodeOk(re, code) && pos <= |text|
    requires Sound(Pristine(re), AllStarts(re)) && 0 in AllStarts(re)
    requires Good(Pristine(re), AllStarts(re), text, pos, c, born) && Reached(re, text, pos, c)
    ensures Running(re, code, text, pos, c, born)
  {
    hide CodeOk, Sound, Good, Reached, Pristine, AllStarts;
  }

  lemma RunParts(re: Re, code: seq<byte>, text: seq<byte>, pos: nat, c: Config, born: seq<nat>)
    requires Running(re, code, text, pos, c, born)
    ensures CodeOk(re, code) && pos <= |text| && Sound(Pristine(re), AllStarts(re)) && 0 in AllStarts(re)
    ensures Good(Pristine(re), AllStarts(re), text, pos, c, born) && Reached(re, text, pos, c)
    ensures ConfigOk(Pristine(re), AllStarts(re), text, c, born)
    ensures c.pc in AllStarts(re) && c.t <= |text| && |born| == |c.stack| <= MAX_FAILURES
  {
    hide CodeOk, Sound, Pristine, AllStarts, AllCover, InS, PointsOk, SimpleLoop, InLoop, Harmless, Alive, SomeAlive,
      Backtrack, Value, Reached;
  }

  lemma RunRewrite(re: Re, code: seq<byte>, code': seq<byte>, text: seq<byte>, pos: nat, c: Config, born: seq<nat>)
    requires Running(re, code, text, pos, c, born) && Rewritten(Pristine(re), AllStarts(re), Decode(code'))
    requires Settling(Pristine(re), AllStarts(re), Decode(code'))
    ensures Running(re, code', text, pos, c, born)
  {
    hide Sound, Good, Pristine, AllStarts, Rewritten, Decode, Reached, Settling;
  }

  /** One step of the machine on the code as it is now. */
  lemma RunStep(re: Re, code: seq<byte>, text: seq<byte>, pos: nat, c: Config, born: seq<nat>)
    requires Running(re, code, text, pos, c, born)
    ensures 0 <= c.pc < |code| == |Pristine(re)| && c.t <= |text| && |born| == |c.stack| <= MAX_FAILURES
    ensures var q := Decode(code);
            Step(q, text, c).Go? && code[c.pc] != C_STAR_JUMP ==>
              && Running(re, code, text, pos, Step(q, text, c).c, Born(q, text, c, born))
              && RunCost(re, text, Step(q, text, c).c, Born(q, text, c, born)) < RunCost(re, text, c, born)
    ensures Step(Decode(code), text, c).Stop? && code[c.pc] != C_STAR_JUMP ==>
      Right(re, text, pos, Step(Decode(code), text, c).o)
  {
    hide *;
    RunParts(re, code, text, pos, c, born);
    CodeParts(re, code);
    PristineSound(re);
    ghost var p, S, q := Pristine(re), AllStarts(re), Decode(code);
    SameLength(p, S, q);
    DecodeLength(code);
    InRange(p, S, c.pc);
    if code[c.pc] == C_STAR_JUMP { return; }
    NoStar(code, c.pc);
    StepSettled(p, S, q, text, c);
    FinalIs(re);
    ReachedOn(re, text, pos, c);
    if Step(q, text, c).Go? {
      GoodStep(p, S, q, text, pos, c, born);
      StepCost(p, S, q, text, c, born);
      RunIntro(re, code, text, pos, Step(q, text, c).c, Born(q, text, c, born));
      RunCostIs(re, text, c, born);
      RunCostIs(re, text, Step(q, text, c).c, Born(q, text, c, born));
    } else {
      GoodStop(p, re, q, text, pos, c, born);
      RightIntro(re, text, pos, Step(q, text, c).o);
    }
  }

  lemma NoStar(code: seq<byte>, pc: int)
    requires 0 <= pc < |code| && code[pc] != C_STAR_JUMP
    ensures !Decode(code)[pc].StarJump?
  {
  }

  lemma FinalIs(re: Re)
    ensures Final(re) == Settled(Pristine(re), AllStarts(re)) && |Final(re)| == |Pristine(re)|
  {
    hide Pristine, AllStarts, SettledAt;
  }

  lemma DecodeLength(code: seq<byte>)
    ensures |Decode(code)| == |code|
  {
  }

  lemma InRange(p: Program, S: set<int>, pc: int)
    requires Sound(p, S) && pc in S
    ensures 0 <= pc < |p|
  {
    SoundAt(p, S, pc);
  }

  lemma RunCostIs(re: Re, text: seq<byte>, c: Config, born: seq<nat>)
    requires c.t <= |text| && |born| == |c.stack| <= MAX_FAILURES
    ensures RunCost(re, text, c, born) == ConfigCost(Pristine(re), text, c, born)
  {
    hide ConfigCost, Pristine;
  }

  lemma RightIntro(re: Re, text: seq<byte>, pos: nat, o: Outcome)
    requires Compiled(Pristine(re), re) && NoBackref(re) && pos <= |text| && RightAnswer(Pristine(re), re, text, pos, o)
    requires Answer(re, text, pos, o)
    ensures Right(re, text, pos, o)
  {
    hide Compiled, NoBackref, RightAnswer, Pristine, Answer;
  }

  /** Where there is an update jump, there is a failure point to update. */
  lemma UpdateHasPoint(re: Re, code: seq<byte>, text: seq<byte>, pos: nat, c: Config, born: seq<nat>)
    requires Running(re, code, text, pos, c, born) && 0 <= c.pc < |code| && At(code, c.pc).UpdateJump?
    ensures c.stack != []
  {
    hide *;
    RunParts(re, code, text, pos, c, born);
    CodeParts(re, code);
    ghost var p, S, q := Pristine(re), AllStarts(re), Decode(code);
    DecodedAt(code, c.pc);
    var cl := UpdateIsAllowed(p, S, q, c.pc);
    UpdatableParts(p, S, c.pc, cl);
    UpdateOk(p, S, text, c, born, c.pc, cl);
  }

  lemma UpdateIsAllowed(p: Program, S: set<int>, q: Program, pc: int) returns (cl: CharClass)
    requires Sound(p, S) && Rewritten(p, S, q) && pc in S && 0 <= pc < |q| && q[pc].UpdateJump?
    ensures Updatable(p, S, pc, cl)
  {
    hide Sound, Rewritten, Updatable;
    SoundAt(p, S, pc);
    RewrittenAt(p, S, q, pc);
    cl :| Updatable(p, S, pc, cl);
  }

  lemma DecodedAt(code: seq<byte>, pc: int)
    requires 0 <= pc < |code|
    ensures |Decode(code)| == |code| && Decode(code)[pc] == At(code, pc)
  {
    hide At;
  }

  // ----- the cases of the big switch -----

  /** The instructions that neither jump nor stop: consumers, zero-width operators, group marks.
      Each case is that of re_match_2 with one string. */
  method PlainStep(code: seq<byte>, pc: nat, syntax: seq<byte>, text: seq<byte>, t: nat)
      returns (ok: bool, pc': nat, t': nat)
    requires pc < |code| && t <= |text| && Plain(At(code, pc)) && IsSyntaxTable(syntax)
    ensures ok == At(code, pc).Passes(text, t)
    ensures ok ==> pc' == At(code, pc).next && t' == t + At(code, pc).Width()
  {
    var op := code[pc];
    pc', t' := pc + 1, t;
    if op == C_BOL {
      ok := t == 0 || text[t - 1] == '\n' as int;
    } else if op == C_EOL {
      ok := t == |text| || text[t] == '\n' as int;
    } else if op == C_BEGBUF {
      ok := t == 0;
    } else if op == C_ENDBUF {
      ok := t == |text|;
    } else if C_WORDBEG <= op <= C_NOTWORDBOUND {
      ok := WordStep(op, syntax, text, t);
    } else if op == C_START_MEMORY || op == C_END_MEMORY {
      pc', ok := pc + 2, true;
    } else if t == |text| {
      ok := false;
    } else {
      var ch := text[t];
      t' := t + 1;
      if op == C_SET {
        MembersAt(code[pc + 1..pc + 33], ch);
        ok := Bit(code[pc + 1 + ch / 8], ch % 8);
        pc' := pc + 33;
      } else if op == C_EXACT {
        ok := ch == code[pc + 1];
        pc' := pc + 2;
      } else if op == C_ANYCHAR {
        ok := ch != '\n' as int;
      } else if op == C_SYNTAXSPEC {
        ok := syntax[ch] == code[pc + 1];
        pc' := pc + 2;
      } else {
        ok := syntax[ch] != code[pc + 1];
        pc' := pc + 2;
      }
    }
  }

  lemma MembersAt(bits: seq<byte>, c: byte)
    requires |bits| == 32
    ensures c in Members(bits) <==> Bit(bits[c / 8], c % 8)
  {
  }

  method WordStep(op: byte, syntax: seq<byte>, text: seq<byte>, t: nat) returns (ok: bool)
    requires C_WORDBEG <= op <= C_NOTWORDBOUND && t <= |text| && IsSyntaxTable(syntax)
    ensures ok == Holds(TestAt(op), text, t)
  {
    if op == C_WORDBEG {
      if t == |text| || syntax[text[t]] != S_WORD { return false; }
      return t == 0 || syntax[text[t - 1]] != S_WORD;
    } else if op == C_WORDEND {
      if t == 0 || syntax[text[t - 1]] != S_WORD { return false; }
      return t == |text| || syntax[text[t]] != S_WORD;
    } else if op == C_WORDBOUND {
      if t == 0 || t == |text| { return true; }
      return (syntax[text[t - 1]] == S_WORD) != (syntax[text[t]] == S_WORD);
    } else {
      if t == 0 || t == |text| { return false; }
      return (syntax[text[t - 1]] == S_WORD) == (syntax[text[t]] == S_WORD);
    }
  }

  /** The label `fail`: pops failure points until one has a text position. */
  method PopFailure(stack: array<FailurePoint>, sp: nat) returns (found: bool, code: int, t: nat, sp': nat)
    requires sp <= stack.Length
    ensures sp' <= sp
    ensures Resume(stack[..sp]) == if found then Go(Config(code, t, stack[..sp'])) else Stop(Fail)
  {
    sp' := sp;
    while sp' != 0
      invariant sp' <= sp && Resume(stack[..sp']) == Resume(stack[..sp])
    {
      ghost var s := stack[..sp'];
      sp' := sp' - 1;
      assert Rest(s) == stack[..sp'];
      if stack[sp'].AtText? {
        return true, stack[sp'].code, stack[sp'].text, sp';
      }
    }
    return false, 0, 0, 0;
  }

  /** An instruction that neither jumps nor stops; if it fails, the matcher goes on at a failure point. */
  method StepOrFail(code: seq<byte>, pc: nat, syntax: seq<byte>, text: seq<byte>, t: nat,
          stack: array<FailurePoint>, sp: nat)
      returns (alive: bool, pc': int, t': nat, sp': nat)
    requires pc < |code| && t <= |text| && Plain(At(code, pc)) && sp <= stack.Length && IsSyntaxTable(syntax)
    ensures sp' <= sp
    ensures if At(code, pc).Passes(text, t) then alive && pc' == At(code, pc).next && t' == t + At(code, pc).Width()
      && sp' == sp
            else Resume(stack[..sp]) == if alive then Go(Config(pc', t', stack[..sp'])) else Stop(Fail)
  {
    alive, pc', t' := PlainStep(code, pc, syntax, text, t);
    sp' := sp;
    if !alive {
      alive, pc', t', sp' := PopFailure(stack, sp);
    }
  }

  /** Pushes a failure point; the stack grows once, from 128 to 4100 points. */
  method PushFailure(stack: array<FailurePoint>, sp: nat, f: FailurePoint)
      returns (full: bool, stack': array<FailurePoint>)
    requires sp <= stack.Length && (stack.Length == INITIAL_FAILURES || stack.Length == MAX_FAILURES)
    modifies stack
    ensures full <==> sp == MAX_FAILURES
    ensures stack'.Length == INITIAL_FAILURES || stack'.Length == MAX_FAILURES
    ensures stack' == stack || fresh(stack')
    ensures !full ==> sp < stack'.Length && stack'[..sp + 1] == old(stack[..sp]) + [f]
  {
    stack' := stack;
    if sp == stack.Length {
      if stack.Length != INITIAL_FAILURES {
        return true, stack';
      }
      stack' := new FailurePoint[MAX_FAILURES];
      for k := 0 to INITIAL_FAILURES
        invariant stack'[..k] == stack[..k] && stack[..] == old(stack[..])
      {
        stack'[k] := stack[k];
      }
    }
    stack'[sp] := f;
    return false, stack';
  }

  /** Moves the topmost failure point to text position t. */
  method UpdateTop(stack: array<FailurePoint>, sp: nat, t: nat)
    requires 0 < sp <= stack.Length
    modifies stack
    ensures stack[..sp] == old(stack[..sp - 1]) + [AtText(old(stack[sp - 1].code), t)]
  {
    stack[sp - 1] := AtText(stack[sp - 1].code, t);
  }

  predicate StopsOrJumps(op: byte) {
    op == C_END || op == C_JUMP || op == C_STAR_JUMP || op == C_FAILURE_JUMP || op == C_UPDATE_FAILURE_JUMP
      || op == C_DUMMY_FAILURE_JUMP
  }

  /** What the opcode at an instruction start is. */
  lemma OpcodeAt(re: Re, code: seq<byte>, text: seq<byte>, pos: nat, c: Config, born: seq<nat>)
    requires Running(re, code, text, pos, c, born)
    ensures c.pc in AllStarts(re) && 0 <= c.pc < |code| && c.t <= |text| && |born| == |c.stack| <= MAX_FAILURES
    ensures code[c.pc] == C_END ==> At(code, c.pc).End?
    ensures code[c.pc] != C_END && StopsOrJumps(code[c.pc]) ==> c.pc + 2 < |code|
    ensures code[c.pc] == C_JUMP ==> At(code, c.pc) == Jump(TargetAt(code, c.pc))
    ensures code[c.pc] == C_UPDATE_FAILURE_JUMP ==> At(code, c.pc) == UpdateJump(TargetAt(code, c.pc))
    ensures code[c.pc] == C_FAILURE_JUMP ==> At(code, c.pc) == Fork(c.pc + 3, TargetAt(code, c.pc))
    ensures code[c.pc] == C_DUMMY_FAILURE_JUMP ==>
      && c.pc + 5 < |code| && code[c.pc + 3] == C_FAILURE_JUMP
      && At(code, c.pc) == Dummy(TargetAt(code, c.pc), TargetAt(code, c.pc + 3))
    ensures !StopsOrJumps(code[c.pc]) ==> Plain(At(code, c.pc))
  {
    hide *;
    RunParts(re, code, text, pos, c, born);
    CodeParts(re, code);
    OpcodeOf(Pristine(re), AllStarts(re), code, c.pc);
  }

  lemma OpcodeOf(p: Program, S: set<int>, code: seq<byte>, pc: int)
    requires Sound(p, S) && Rewritten(p, S, Decode(code)) && pc in S
    ensures 0 <= pc < |code|
    ensures code[pc] == C_END ==> At(code, pc).End?
    ensures code[pc] != C_END && StopsOrJumps(code[pc]) ==> pc + 2 < |code|
    ensures code[pc] == C_JUMP ==> At(code, pc) == Jump(TargetAt(code, pc))
    ensures code[pc] == C_UPDATE_FAILURE_JUMP ==> At(code, pc) == UpdateJump(TargetAt(code, pc))
    ensures code[pc] == C_FAILURE_JUMP ==> At(code, pc) == Fork(pc + 3, TargetAt(code, pc))
    ensures code[pc] == C_DUMMY_FAILURE_JUMP ==> pc + 5 < |code| && code[pc + 3] == C_FAILURE_JUMP
                                                   && At(code, pc) == Dummy(TargetAt(code, pc), TargetAt(code, pc + 3))
    ensures !StopsOrJumps(code[pc]) ==> Plain(At(code, pc))
  {
    hide Sound, Rewritten, Updatable;
    SoundAt(p, S, pc);
    RewrittenAt(p, S, Decode(code), pc);
  }

  /** What a step does, instruction by instruction. */
  lemma StepAt(code: seq<byte>, text: seq<byte>, c: Config)
    requires 0 <= c.pc < |code| && c.t <= |text|
    ensures |Decode(code)| == |code|
    ensures var i, s := At(code, c.pc), Step(Decode(code), text, c);
            && (i.End? ==> s == Stop(Found(c.t)))
            && (Plain(i) ==> s == if i.Passes(text, c.t) then Go(Config(i.next, c.t + i.Width(), c.stack))
              else Resume(c.stack))
            && (i.Jump? ==> s == Go(Config(i.next, c.t, c.stack)))
            && (i.Fork? ==> s == if |c.stack| >= MAX_FAILURES then Stop(Overflow)
              else Go(Config(i.next, c.t, c.stack + [AtText(i.alt, c.t)])))
            && (i.Dummy? ==> s == if |c.stack| >= MAX_FAILURES then Stop(Overflow)
              else Go(Config(i.next, c.t, c.stack + [NoText(i.alt)])))
            && (i.UpdateJump? && c.stack != [] ==>
                  s == Go(Config(i.next, c.t, c.stack[..|c.stack| - 1] + [AtText(c.stack[|c.stack| - 1].code, c.t)])))
  {
    hide At, Resume;
    DecodedAt(code, c.pc);
  }

  /** A star jump that is met may be rewritten. */
  lemma RewritesHere(re: Re, code: seq<byte>, text: seq<byte>, pos: nat, c: Config, born: seq<nat>)
    requires Running(re, code, text, pos, c, born)
    ensures Sound(Pristine(re), AllStarts(re)) && Rewritten(Pristine(re), AllStarts(re), Decode(code))
      && c.pc in AllStarts(re)
    ensures Settling(Pristine(re), AllStarts(re), Decode(code))
  {
    hide *;
    RunParts(re, code, text, pos, c, born);
    CodeParts(re, code);
  }

  /** The run goes on at d, and has come nearer to its end. */
  ghost predicate GoesOn(re: Re, code: seq<byte>, text: seq<byte>, pos: nat, c: Config, born: seq<nat>, d: Config,
          born': seq<nat>) {
    Running(re, code, text, pos, d, born') && RunCost(re, text, d, born') < RunCost(re, text, c, born)
      && 0 <= d.pc < |code| && d.t <= |text|
  }

  /** What one round of the matcher's loop does, by the opcode it meets. */
  lemma Round(re: Re, code: seq<byte>, text: seq<byte>, pos: nat, c: Config, born: seq<nat>) returns (born': seq<nat>)
    requires Running(re, code, text, pos, c, born)
    ensures c.pc in AllStarts(re) && 0 <= c.pc < |code| && c.t <= |text| && |c.stack| <= MAX_FAILURES
    ensures code[c.pc] == C_END ==>
      0 <= c.t - pos && FromInt(c.t - pos, pos) == Found(c.t) && Right(re, text, pos, Found(c.t))
    ensures code[c.pc] != C_END && StopsOrJumps(code[c.pc]) ==> c.pc + 2 < |code|
    ensures code[c.pc] == C_JUMP ==>
      GoesOn(re, code, text, pos, c, born, Config(TargetAt(code, c.pc), c.t, c.stack), born')
    ensures code[c.pc] == C_UPDATE_FAILURE_JUMP ==>
      && c.stack != []
      && var moved := AtText(c.stack[|c.stack| - 1].code, c.t);
         GoesOn(re, code, text, pos, c, born, Config(TargetAt(code, c.pc), c.t, c.stack[..|c.stack| - 1] + [moved]),
           born')
    ensures code[c.pc] == C_FAILURE_JUMP ==>
      if |c.stack| >= MAX_FAILURES then Right(re, text, pos, Overflow)
      else
        GoesOn(re, code, text, pos, c, born, Config(c.pc + 3, c.t, c.stack + [AtText(TargetAt(code, c.pc), c.t)]),
          born')
    ensures code[c.pc] == C_DUMMY_FAILURE_JUMP ==>
      && c.pc + 5 < |code| && code[c.pc + 3] == C_FAILURE_JUMP
      && if |c.stack| >= MAX_FAILURES then Right(re, text, pos, Overflow)
         else
           GoesOn(re, code, text, pos, c, born,
             Config(TargetAt(code, c.pc), c.t, c.stack + [NoText(TargetAt(code, c.pc + 3))]), born')
    ensures !StopsOrJumps(code[c.pc]) ==>
      && Plain(At(code, c.pc))
      && var i := At(code, c.pc);
         if i.Passes(text, c.t) then
           GoesOn(re, code, text, pos, c, born, Config(i.next, c.t + i.Width(), c.stack), born')
         else match Resume(c.stack)
           case Go(d) => GoesOn(re, code, text, pos, c, born, d, born')
           case Stop(o) => Right(re, text, pos, o)
  {
    hide *;
    OpcodeAt(re, code, text, pos, c, born);
    RunStep(re, code, text, pos, c, born);
    StepAt(code, text, c);
    Kinds(code[c.pc]);
    var next := Step(Decode(code), text, c);
    born' := if c.t <= |text| && |born| == |c.stack| then Born(Decode(code), text, c, born) else [];
    if code[c.pc] == C_UPDATE_FAILURE_JUMP { UpdateHasPoint(re, code, text, pos, c, born); }
    if code[c.pc] != C_STAR_JUMP {
      if next.Go? {
        OpcodeAt(re, code, text, pos, next.c, born');
        GoesOnIntro(re, code, text, pos, c, born, next.c, born');
      } else if code[c.pc] == C_END {
        FoundInt(re, text, pos, c.t);
      }
    }
  }

  lemma GoesOnIntro(re: Re, code: seq<byte>, text: seq<byte>, pos: nat, c: Config, born: seq<nat>, d: Config,
          born': seq<nat>)
    requires Running(re, code, text, pos, d, born') && RunCost(re, text, d, born') < RunCost(re, text, c, born)
    requires 0 <= d.pc < |code| && d.t <= |text|
    ensures GoesOn(re, code, text, pos, c, born, d, born')
  {
    hide Running, RunCost;
  }

  lemma GoesOnParts(re: Re, code: seq<byte>, text: seq<byte>, pos: nat, c: Config, born: seq<nat>, d: Config,
          born': seq<nat>)
    requires GoesOn(re, code, text, pos, c, born, d, born')
    ensures Running(re, code, text, pos, d, born') && RunCost(re, text, d, born') < RunCost(re, text, c, born)
    ensures 0 <= d.pc < |code| && d.t <= |text|
  {
    hide Running, RunCost;
  }

  lemma Kinds(op: byte)
    ensures StopsOrJumps(op) <==>
      op == C_END || op == C_JUMP || op == C_STAR_JUMP || op == C_FAILURE_JUMP || op == C_UPDATE_FAILURE_JUMP
        || op == C_DUMMY_FAILURE_JUMP
    ensures op == C_STAR_JUMP ==>
      op != C_END && op != C_JUMP && op != C_FAILURE_JUMP && op != C_UPDATE_FAILURE_JUMP && op != C_DUMMY_FAILURE_JUMP
    ensures op == C_END ==>
      op != C_JUMP && op != C_FAILURE_JUMP && op != C_UPDATE_FAILURE_JUMP && op != C_DUMMY_FAILURE_JUMP
  {
  }

  // ----- the answer as an integer -----

  /** What the value that re_match_2 returns means: the length of the match, -1 or -2. */
  function FromInt(r: int, pos: nat): Outcome {
    if r == -2 then Overflow else if r < 0 then Fail else Found(pos + r)
  }

  lemma FoundInt(re: Re, text: seq<byte>, pos: nat, e: nat)
    requires Right(re, text, pos, Found(e))
    ensures 0 <= e - pos && FromInt(e - pos, pos) == Found(e)
  {
    hide Compiled, NoBackref, Matches, PlainMatch, Answer;
  }

  lemma FailureInts(pos: nat)
    ensures FromInt(-1, pos) == Fail && FromInt(-2, pos) == Overflow
  {
  }

  // ----- every answer is right -----

  lemma FinalRewritten(re: Re)
    requires NoBackref(re) && Encodable(re)
    ensures Rewritten(Pristine(re), AllStarts(re), Final(re))
  {
    hide NoBackref, Encodable, Pristine, AllStarts, Sound, MayUpdate, Updatable;
    PristineSound(re);
    var p, S := Pristine(re), AllStarts(re);
    forall pc | pc in S && 0 <= pc < |p| ensures SameOrRewritten(p, S, Final(re), pc) {
      if p[pc].StarJump? && StarUpdates(p, S, pc) {
        var cl :| MayUpdate(p, S, pc, cl);
        DisjointForgettable(p, S, pc, cl);
      }
    }
  }

  lemma {:induction false} ReachedGood(re: Re, text: seq<byte>, pos: nat, c: Config, born: seq<nat>, d: Config, n: nat)
      returns (born': seq<nat>)
    requires NoBackref(re) && Encodable(re) && pos <= |text| && Sound(Pristine(re), AllStarts(re)) && 0 in AllStarts(re)
    requires Good(Pristine(re), AllStarts(re), text, pos, c, born) && Reaches(Final(re), text, c, d, n)
    ensures Good(Pristine(re), AllStarts(re), text, pos, d, born')
    decreases n
  {
    hide *;
    ReachesParts(Final(re), text, c, d, n);
    if n == 0 {
      born' := born;
    } else {
      FinalIs(re);
      FinalRewritten(re);
      GoodSize(re, text, pos, c, born);
      GoodStep(Pristine(re), AllStarts(re), Final(re), text, pos, c, born);
      born' := ReachedGood(re, text, pos, Step(Final(re), text, c).c, Born(Final(re), text, c, born), d, n - 1);
    }
  }

  lemma GoodSize(re: Re, text: seq<byte>, pos: nat, c: Config, born: seq<nat>)
    requires pos <= |text| && Sound(Pristine(re), AllStarts(re)) && 0 in AllStarts(re)
    requires Good(Pristine(re), AllStarts(re), text, pos, c, born)
    ensures |born| == |c.stack| && c.t <= |text|
  {
    hide Sound, Pristine, AllStarts, AllCover, InS, PointsOk, SimpleLoop, InLoop, Harmless, Alive, SomeAlive,
      Backtrack, Value;
  }

  lemma ReachesParts(q: Program, text: seq<byte>, c: Config, d: Config, n: nat)
    requires Reaches(q, text, c, d, n)
    ensures n == 0 ==> c == d
    ensures n > 0 ==>
      0 <= c.pc < |q| && c.t <= |text| && Step(q, text, c).Go? && Reaches(q, text, Step(q, text, c).c, d, n - 1)
  {
    hide Step;
  }

  /** The answer of the settled code is the answer of the matcher, and what is proved of the one is
      proved of the other. */
  lemma AnswerRight(re: Re, text: seq<byte>, pos: nat, o: Outcome)
    requires NoBackref(re) && Encodable(re) && pos <= |text| && Answer(re, text, pos, o)
    ensures Right(re, text, pos, o)
  {
    hide *;
    PristineSound(re);
    FinalRewritten(re);
    FinalIs(re);
    var d, n := AnswerParts(re, text, pos, o);
    GoodStart(Pristine(re), AllStarts(re), text, pos);
    var born := ReachedGood(re, text, pos, Config(0, pos, []), [], d, n);
    GoodSize(re, text, pos, d, born);
    GoodStop(Pristine(re), re, Final(re), text, pos, d, born);
    RightIntro(re, text, pos, o);
  }

  lemma AnswerParts(re: Re, text: seq<byte>, pos: nat, o: Outcome) returns (d: Config, n: nat)
    requires Answer(re, text, pos, o)
    ensures Reaches(Final(re), text, Config(0, pos, []), d, n)
    ensures 0 <= d.pc < |Final(re)| && d.t <= |text| && Step(Final(re), text, d) == Stop(o)
  {
    hide Reaches, Step, Final;
    d, n :| Reaches(Final(re), text, Config(0, pos, []), d, n) && StopsAt(Final(re), text, d, o);
  }

  /** The matcher answers. */
  lemma HasAnswer(re: Re, text: seq<byte>, pos: nat) returns (o: Outcome)
    requires NoBackref(re) && Encodable(re) && pos <= |text|
    ensures Answer(re, text, pos, o)
  {
    hide *;
    PristineSound(re);
    GoodStart(Pristine(re), AllStarts(re), text, pos);
    ReachedStart(re, text, pos);
    o := AnswerFrom(re, text, pos, Config(0, pos, []), []);
  }

  lemma {:induction false} AnswerFrom(re: Re, text: seq<byte>, pos: nat, c: Config, born: seq<nat>) returns (o: Outcome)
    requires NoBackref(re) && Encodable(re) && pos <= |text| && Sound(Pristine(re), AllStarts(re)) && 0 in AllStarts(re)
    requires Good(Pristine(re), AllStarts(re), text, pos, c, born) && Reached(re, text, pos, c)
    ensures Answer(re, text, pos, o)
    decreases RunCost(re, text, c, born)
  {
    hide *;
    FinalIs(re);
    FinalRewritten(re);
    GoodSize(re, text, pos, c, born);
    GoodConfig(Pristine(re), AllStarts(re), text, pos, c, born);
    ConfigIn(Pristine(re), AllStarts(re), text, c, born);
    ReachedOn(re, text, pos, c);
    var next := Step(Final(re), text, c);
    if next.Stop? {
      o := next.o;
    } else {
      GoodStep(Pristine(re), AllStarts(re), Final(re), text, pos, c, born);
      StepCost(Pristine(re), AllStarts(re), Final(re), text, c, born);
      var born' := Born(Final(re), text, c, born);
      RunCostIs(re, text, c, born);
      RunCostIs(re, text, next.c, born');
      o := AnswerFrom(re, text, pos, next.c, born');
    }
  }

  lemma ConfigIn(p: Program, S: set<int>, text: seq<byte>, c: Config, born: seq<nat>)
    requires Sound(p, S) && ConfigOk(p, S, text, c, born)
    ensures 0 <= c.pc < |p| && |born| == |c.stack| <= MAX_FAILURES && c.t <= |text|
  {
    hide Sound, PointsOk, SimpleLoop, InLoop;
    SoundAt(p, S, c.pc);
  }

  lemma SameAnswer(re: Re, text: seq<byte>, pos: nat, o: Outcome, o': Outcome)
    requires Answer(re, text, pos, o) && Answer(re, text, pos, o')
    ensures o == o'
  {
    hide Final, Answers;
    AnswerUnique(Final(re), text, Config(0, pos, []), o, o');
  }

  // ----- searching -----

  ghost predicate MatchesAt(re: Re, text: seq<byte>, k: nat) {
    k <= |text| && exists e: nat :: e <= |text| && Matches(re, text, k, e)
  }

  /** The matcher finds a match at k. */
  ghost predicate Finds(re: Re, text: seq<byte>, k: nat) {
    k <= |text| && exists e: nat :: Answer(re, text, k, Found(e))
  }

  ghost predicate NoneFound(re: Re, text: seq<byte>, lo: nat, hi: nat) {
    forall k: nat :: lo <= k < hi ==> !Finds(re, text, k)
  }

  lemma FindsMatch(re: Re, text: seq<byte>, k: nat)
    requires NoBackref(re) && Encodable(re) && Finds(re, text, k)
    ensures MatchesAt(re, text, k)
  {
    hide NoBackref, Encodable, Answer, MatchesAt, Right;
    var e: nat :| Answer(re, text, k, Found(e));
    AnswerRight(re, text, k, Found(e));
    RightHere(re, text, k, Found(e));
  }

  /** One more position has no match, or the matcher has answered that it has none. */
  lemma NoneFoundMore(re: Re, text: seq<byte>, lo: nat, hi: nat)
    requires NoBackref(re) && Encodable(re) && NoneFound(re, text, lo, hi)
    requires !MatchesAt(re, text, hi) || Answer(re, text, hi, Fail)
    ensures NoneFound(re, text, lo, hi + 1)
  {
    hide NoBackref, Encodable, Answer, MatchesAt;
    if Finds(re, text, hi) {
      FindsMatch(re, text, hi);
      var e: nat :| Answer(re, text, hi, Found(e));
      SameAnswer(re, text, hi, Fail, Found(e));
    }
  }

  ghost predicate NoneIn(re: Re, text: seq<byte>, lo: nat, hi: nat) {
    forall k: nat :: lo <= k < hi ==> !MatchesAt(re, text, k)
  }

  /** Plain backtracking at position k runs out of failure points. */
  ghost predicate Overflows(re: Re, text: seq<byte>, k: nat) {
    Compiled(Pristine(re), re) && NoBackref(re) && k <= |text| && PlainMatch(Pristine(re), re, text, k).Overflow?
  }

  ghost predicate SearchFinds(re: Re, text: seq<byte>, start: nat, range: nat, r: int) {
    && (r >= 0 ==> Finds(re, text, r) && NoneFound(re, text, start, r))
    && (r == -1 ==> NoneFound(re, text, start, start + range + 1))
    && (r == -2 ==> exists k: nat ::
      start <= k <= start + range && Answer(re, text, k, Overflow) && NoneFound(re, text, start, k))
  }

  /** What the result of a search of positions start to start + range means: the leftmost position
      where the matcher finds a match, -1 for none, -2 for an overflow.  For patterns that lose nothing
      by rewriting it is the leftmost position that matches. */
  ghost predicate SearchRight(re: Re, text: seq<byte>, start: nat, range: nat, r: int) {
    && -2 <= r
    && (r >= 0 ==> start <= r <= start + range && MatchesAt(re, text, r))
    && SearchFinds(re, text, start, range, r)
    && (Steady(re) ==>
          && (r >= 0 ==> NoneIn(re, text, start, r))
          && (r == -1 ==> NoneIn(re, text, start, start + range + 1))
          && (r == -2 ==> exists k: nat ::
            start <= k <= start + range && Overflows(re, text, k) && NoneIn(re, text, start, k)))
  }

  /** Trying plain backtracking at every position in turn. */
  ghost function NaiveSearch(re: Re, text: seq<byte>, start: nat, range: nat): int
    requires NoBackref(re) && Encodable(re) && start + range <= |text|
    decreases range
  {
    PristineSound(re);
    match PlainMatch(Pristine(re), re, text, start)
    case Found(_) => start
    case Overflow => -2
    case Fail => if range == 0 then -1 else NaiveSearch(re, text, start + 1, range - 1)
  }

  /** A search that is right finds what naive search finds, unless naive search overflows. */
  lemma {:induction false} SearchIsNaive(re: Re, text: seq<byte>, start: nat, range: nat, r: int)
    requires NoBackref(re) && Encodable(re) && Steady(re) && start + range <= |text|
    requires SearchRight(re, text, start, range, r) && NaiveSearch(re, text, start, range) != -2
    ensures r == NaiveSearch(re, text, start, range)
    decreases range
  {
    hide PlainMatch, Matches, Compiled, NoBackref, Encodable, Steady, Pristine, MatchesAt, Sound, AllStarts;
    PristineSound(re);
    PlainDecides(re, text, start);
    if PlainMatch(Pristine(re), re, text, start).Fail? && range > 0 {
      SearchOn(re, text, start, range, r);
      SearchIsNaive(re, text, start + 1, range - 1, r);
    }
  }

  lemma PlainDecides(re: Re, text: seq<byte>, k: nat)
    requires Compiled(Pristine(re), re) && NoBackref(re) && k <= |text|
    ensures PlainMatch(Pristine(re), re, text, k).Found? ==> MatchesAt(re, text, k)
    ensures PlainMatch(Pristine(re), re, text, k).Fail? ==> !MatchesAt(re, text, k)
  {
    hide PlainMatch, Matches, Compiled, NoBackref, Pristine;
    PlainMatchCorrect(Pristine(re), re, text, k);
  }

  lemma SearchOn(re: Re, text: seq<byte>, start: nat, range: nat, r: int)
    requires SearchRight(re, text, start, range, r) && Steady(re) && range > 0
    requires Encodable(re)
    requires Compiled(Pristine(re), re) && NoBackref(re) && start <= |text|
      && PlainMatch(Pristine(re), re, text, start).Fail?
    ensures SearchRight(re, text, start + 1, range - 1, r)
  {
    hide PlainMatch, Matches, Compiled, NoBackref, Encodable, Steady, Pristine, MatchesAt, SearchFinds;
    PlainDecides(re, text, start);
    FindsOn(re, text, start, range, r);
    if r == -2 {
      var k: nat :| start <= k <= start + range && Overflows(re, text, k) && NoneIn(re, text, start, k);
      assert NoneIn(re, text, start + 1, k);
    }
  }

  lemma FindsOn(re: Re, text: seq<byte>, start: nat, range: nat, r: int)
    requires SearchFinds(re, text, start, range, r) && NoBackref(re) && Encodable(re) && start <= |text| && Steady(re)
      && range > 0
    requires Compiled(Pristine(re), re) && PlainMatch(Pristine(re), re, text, start).Fail?
    ensures SearchFinds(re, text, start + 1, range - 1, r)
  {
    hide PlainMatch, Compiled, NoBackref, Encodable, Steady, Pristine, Finds, Answer, Right;
    if r == -2 {
      var k: nat :| start <= k <= start + range && Answer(re, text, k, Overflow) && NoneFound(re, text, start, k);
      if k == start {
        AnswerRight(re, text, start, Overflow);
        RightHere(re, text, start, Overflow);
      }
      assert NoneFound(re, text, start + 1, k);
    }
  }

  lemma CodeWalk(re: Re, code: seq<byte>)
    requires CodeOk(re, code)
    ensures |code| > 0 && Walkable(Decode(code), AllStarts(re)) && 0 in AllStarts(re)
  {
    hide Walkable, AllStarts, Sound, Rewritten, NoBackref, Encodable, Decode;
    PristineSound(re);
    RewrittenWalkable(Pristine(re), AllStarts(re), Decode(code));
    CodeLength(re, code);
  }

  // ----- why positions may be skipped -----

  /** The first-character map of re, exactly. */
  ghost predicate MapOk(re: Re, firsts: seq<bool>, nul: nat, anchor: nat) {
    var p := Pristine(re);
    && |firsts| == 256 && nul <= 2 && |p| > 0
    && (forall c: byte :: firsts[c] <==> CanOpen(p, 0, Char(c)))
    && (nul == 1 <==> CanOpen(p, 0, ToEnd))
    && (nul != 0 <==> CanOpen(p, 0, ToEnd) || CanOpen(p, 0, AtEol))
    && anchor == if p[0].Test? && p[0].a.Bol? then 1 else if p[0].Test? && p[0].a.BegBuf? then 2 else 0
  }

  /** A match begins with something that can come first. */
  lemma MatchOpens(re: Re, text: seq<byte>, k: nat) returns (g: Goal)
    requires NoBackref(re) && Encodable(re) && MatchesAt(re, text, k)
    ensures k <= |text| && CanOpen(Pristine(re), 0, g)
    ensures g.Char? ==> k < |text| && text[k] == g.c
    ensures g.AtEol? ==> k == |text|
    ensures var p := Pristine(re); |p| > 0 && (p[0].Test? ==> Holds(p[0].a, text, k))
  {
    var e: nat :| e <= |text| && Matches(re, text, k, e);
    hide *;
    PristineSound(re);
    var p, S := Pristine(re), AllStarts(re);
    CodeMeansPattern(p, re, text, k, e);
    var n: nat :| Acc(p, text, 0, k, e, n);
    StartAhead(p, S);
    RewrittenRefl(p, S);
    g := AcceptOpens(p, S, p, text, 0, k, e, n);
    assert CanOpen(p, 0, g) by { OpensCan(p, 0, g, n); }
    AccTest(p, text, k, e, n);
  }

  lemma OpensCan(q: Program, pc: int, g: Goal, n: nat)
    requires Opens(q, pc, g, n)
    ensures CanOpen(q, pc, g)
  {
  }

  lemma AccTest(p: Program, text: seq<byte>, k: nat, e: nat, n: nat)
    requires k <= |text| && Acc(p, text, 0, k, e, n)
    ensures |p| > 0 && (p[0].Test? ==> Holds(p[0].a, text, k))
  {
  }

  /** A position whose character the map does not have cannot begin a match. */
  lemma SkipByMap(re: Re, text: seq<byte>, k: nat, firsts: seq<bool>, nul: nat, anchor: nat)
    requires NoBackref(re) && Encodable(re) && MapOk(re, firsts, nul, anchor)
    requires nul != 1 && k < |text| && !firsts[text[k]]
    ensures !MatchesAt(re, text, k)
  {
    hide MatchesAt, CanOpen, Pristine, NoBackref, Encodable;
    if MatchesAt(re, text, k) { var g := MatchOpens(re, text, k); }
  }

  lemma SkipEnd(re: Re, text: seq<byte>, firsts: seq<bool>, nul: nat, anchor: nat)
    requires NoBackref(re) && Encodable(re) && MapOk(re, firsts, nul, anchor) && nul == 0
    ensures !MatchesAt(re, text, |text|)
  {
    hide MatchesAt, CanOpen, Pristine, NoBackref, Encodable;
    if MatchesAt(re, text, |text|) { var g := MatchOpens(re, text, |text|); }
  }

  lemma SkipByAnchor(re: Re, text: seq<byte>, k: nat, firsts: seq<bool>, nul: nat, anchor: nat)
    requires NoBackref(re) && Encodable(re) && MapOk(re, firsts, nul, anchor) && 0 < k <= |text|
    requires anchor == 2 || (anchor == 1 && text[k - 1] != NEWLINE)
    ensures !MatchesAt(re, text, k)
  {
    hide MatchesAt, CanOpen, Pristine, NoBackref, Encodable;
    if MatchesAt(re, text, k) { var g := MatchOpens(re, text, k); }
  }

  lemma NoneMore(re: Re, text: seq<byte>, lo: nat, hi: nat)
    requires NoneIn(re, text, lo, hi) && !MatchesAt(re, text, hi)
    ensures NoneIn(re, text, lo, hi + 1)
  {
    hide MatchesAt;
  }

  /** No position from lo to hi matches, or if the pattern may lose matches, none is found. */
  ghost predicate Tried(re: Re, text: seq<byte>, lo: nat, hi: nat) {
    (Steady(re) ==> NoneIn(re, text, lo, hi)) && NoneFound(re, text, lo, hi)
  }

  lemma TriedMore(re: Re, text: seq<byte>, lo: nat, hi: nat)
    requires NoBackref(re) && Encodable(re) && Tried(re, text, lo, hi)
    requires !MatchesAt(re, text, hi) || (Answer(re, text, hi, Fail) && (Steady(re) ==> !MatchesAt(re, text, hi)))
    ensures Tried(re, text, lo, hi + 1)
  {
    hide NoneIn, NoneFound, Steady, MatchesAt, Answer;
    NoneFoundMore(re, text, lo, hi);
    if Steady(re) { NoneMore(re, text, lo, hi); }
  }

  lemma NoneYet(re: Re, text: seq<byte>, k: nat)
    ensures Tried(re, text, k, k)
  {
  }

  lemma IntMeans(r: int, pos: nat)
    ensures r >= 0 ==> FromInt(r, pos) == Found(pos + r)
    ensures r == -1 ==> FromInt(r, pos) == Fail
    ensures r == -2 ==> FromInt(r, pos) == Overflow
  {
  }

  /** The search stops with a match or an overflow at pos. */
  lemma SearchEnds(re: Re, text: seq<byte>, start: nat, count: nat, pos: nat, o: Outcome)
    requires start <= pos <= start + count && Tried(re, text, start, pos)
    requires Answer(re, text, pos, o) && pos <= |text|
    ensures o.Found? && MatchesAt(re, text, pos) ==> SearchRight(re, text, start, count, pos)
    ensures o.Overflow? && (Steady(re) ==> Overflows(re, text, pos)) ==> SearchRight(re, text, start, count, -2)
  {
    hide MatchesAt, Overflows, Steady, Answer, NoneFound;
    if o.Found? { assert Answer(re, text, pos, Found(o.end)); }
  }

  /** The search has tried all positions up to `last`; an anchored one need not try the others. */
  lemma SearchNone(re: Re, text: seq<byte>, start: nat, count: nat, last: nat, firsts: seq<bool>, nul: nat, anchor: nat)
    requires NoBackref(re) && Encodable(re) && MapOk(re, firsts, nul, anchor) && start + count <= |text|
    requires last == (if anchor == 2 then start else start + count) && Tried(re, text, start, last + 1)
    ensures SearchRight(re, text, start, count, -1)
  {
    hide MatchesAt, Overflows, Steady, MapOk, NoBackref, Encodable, Finds;
    forall k: nat | start < k <= start + count && anchor == 2 ensures !MatchesAt(re, text, k) && !Finds(re, text, k) {
      SkipByAnchor(re, text, k, firsts, nul, anchor);
      if Finds(re, text, k) { FindsMatch(re, text, k); }
    }
  }

  lemma SearchBegBuf(re: Re, text: seq<byte>, start: nat, count: nat, firsts: seq<bool>, nul: nat, anchor: nat)
    requires NoBackref(re) && Encodable(re) && MapOk(re, firsts, nul, anchor) && start + count <= |text| && anchor == 2
    ensures start > 0 ==> SearchRight(re, text, start, count, -1)
  {
    hide MatchesAt, Overflows, Steady, MapOk, NoBackref, Encodable, Finds;
    if start > 0 {
      forall k: nat | start <= k <= start + count ensures !MatchesAt(re, text, k) && !Finds(re, text, k) {
        SkipByAnchor(re, text, k, firsts, nul, anchor);
        if Finds(re, text, k) { FindsMatch(re, text, k); }
      }
    }
  }

  /** What the answer at one position says about that position. */
  lemma RightHere(re: Re, text: seq<byte>, k: nat, o: Outcome)
    requires Right(re, text, k, o)
    ensures k <= |text| && Answer(re, text, k, o)
    ensures o.Found? ==> MatchesAt(re, text, k)
    ensures Steady(re) && o.Fail? ==> !MatchesAt(re, text, k)
    ensures Steady(re) && o.Overflow? ==> Overflows(re, text, k)
  {
    hide Compiled, NoBackref, Matches, PlainMatch, Harmless, Pristine, AllStarts, Answer;
  }

  lemma MapAt(re: Re, code: seq<byte>, firsts: seq<bool>, nul: nat, anchor: nat)
    requires CodeOk(re, code) && |firsts| == 256 && nul <= 2 && |code| > 0
    requires forall c: byte :: firsts[c] <==> CanOpen(Decode(code), 0, Char(c))
    requires nul == 1 <==> CanOpen(Decode(code), 0, ToEnd)
    requires nul != 0 <==> CanOpen(Decode(code), 0, ToEnd) || CanOpen(Decode(code), 0, AtEol)
    requires anchor == if code[0] == C_BOL then 1 else if code[0] == C_BEGBUF then 2 else 0
    ensures MapOk(re, firsts, nul, anchor)
  {
    hide Compiled, Encodable, NoBackref, Pristine, Decode, CanOpen, AllStarts, Sound, Rewritten, Ahead;
    PristineSound(re);
    ghost var p, S, q := Pristine(re), AllStarts(re), Decode(code);
    StartAhead(p, S);
    forall g ensures CanOpen(q, 0, g) <==> CanOpen(p, 0, g) { CanOpenSame(p, S, q, 0, g); }
    FirstOp(p, S, code);
  }

  lemma FirstOp(p: Program, S: set<int>, code: seq<byte>)
    requires Sound(p, S) && Rewritten(p, S, Decode(code)) && 0 in S
    ensures |p| == |code| > 0
    ensures (p[0].Test? && p[0].a.Bol? <==> code[0] == C_BOL) && (p[0].Test? && p[0].a.BegBuf? <==> code[0] == C_BEGBUF)
  {
    hide Sound, Rewritten, LocalOk;
    OpAt(p, S, code, 0);
  }

  class PatternBuffer {
    ghost var re: Re
    var buffer: array<byte>
    var used: nat
    var fastmap: array<bool>
    var fastmapAccurate: bool
    var canBeNull: nat
    var anchor: nat

    /** The code is that of re, up to rewriting. */
    ghost predicate Ready()
      reads this, buffer
    {
      used <= buffer.Length && CodeOk(re, buffer[..used])
    }

    constructor ()
      ensures fastmap.Length == 256 && !fastmapAccurate && fresh(buffer) && fresh(fastmap)
    {
      buffer := new byte[0];
      used := 0;
      fastmap := new bool[256];
      fastmapAccurate := false;
      canBeNull := 0;
      anchor := 0;
      re := Eps;
    }

    /** GOOMBAServer_re_compile_pattern on this buffer. */
    method Compile(regex: seq<byte>) returns (ok: bool, error: RegexParse.CompileError)
      requires fastmap.Length == 256
      modifies this
      ensures fastmap == old(fastmap) && fresh(buffer) && !fastmapAccurate
      ensures ok <==> RegexParse.Parse(regex).Ok?
      ensures ok ==>
        used <= buffer.Length && re == RegexParse.Parse(regex).value && buffer[..used] == RegexCode.Compile(re)
      ensures ok && NoBackref(re) && Encodable(re) ==> Valid()
      ensures !ok ==> RegexParse.Parse(regex) == RegexParse.Err(error)
    {
      hide *;
      var compiler := new RegexCompile.Compiler();
      ok, error := compiler.Compile(regex);
      buffer, used := compiler.pattern, if ok then compiler.offset else 0;
      fastmapAccurate := false;
      if ok {
        re := RegexParse.Parse(regex).value;
        if NoBackref(re) && Encodable(re) { CompiledCodeOk(re); }
      }
      MeansValid();
    }

    /** re_match_2 on one string: matches the pattern at pos. */
    method Match(text: seq<byte>, pos: nat) returns (r: int)
      requires Ready() && pos <= |text|
      modifies buffer
      ensures Ready() && buffer[used..] == old(buffer[used..])
      ensures -2 <= r && Right(re, text, pos, FromInt(r, pos))
    {
      hide *;
      assert CodeOk(re, buffer[..used]) && used <= buffer.Length by { IsReady(); }
      var syntax := SyntaxTable();
      var stack := new FailurePoint[INITIAL_FAILURES];
      var pc: int, t: nat, sp: nat := 0, pos, 0;
      ghost var born: seq<nat>, rest := [], buffer[used..];
      assert stack[..sp] == [];
      RunStart(re, buffer[..used], text, pos);
      OpcodeAt(re, buffer[..used], text, pos, Config(0, pos, []), []);
      FailureInts(pos);
      while true
        invariant used <= buffer.Length && buffer[used..] == rest
        invariant sp <= stack.Length && (stack.Length == INITIAL_FAILURES || stack.Length == MAX_FAILURES)
          && fresh(stack)
        invariant Running(re, buffer[..used], text, pos, Config(pc, t, stack[..sp]), born)
        invariant 0 <= pc < used
        decreases RunCost(re, text, Config(pc, t, stack[..sp]), born), if buffer[pc] == C_STAR_JUMP then 1 else 0
      {
        ghost var code, c := buffer[..used], Config(pc, t, stack[..sp]);
        StillReady(text, pos, c, born);
        ghost var born' := Round(re, code, text, pos, c, born);
        var op := buffer[pc];
        Kinds(op);
        if op == C_END {
          return t - pos;
        } else if op == C_STAR_JUMP {
          // rewritten here, carried out by the next round
          RewritesHere(re, code, text, pos, c, born);
          RewriteStar(buffer, used, pc, Pristine(re), AllStarts(re));
          RunRewrite(re, code, buffer[..used], text, pos, c, born);
        } else {
          if op == C_JUMP {
            pc := TargetAt(buffer[..used], pc);
          } else if op == C_UPDATE_FAILURE_JUMP {
            assert stack[sp - 1] == c.stack[|c.stack| - 1] && stack[..sp - 1] == c.stack[..|c.stack| - 1];
            UpdateTop(stack, sp, t);
            pc := TargetAt(buffer[..used], pc);
          } else if op == C_FAILURE_JUMP || op == C_DUMMY_FAILURE_JUMP {
            var x := TargetAt(buffer[..used], pc);
            var f := if op == C_FAILURE_JUMP then AtText(x, t) else NoText(TargetAt(buffer[..used], pc + 3));
            var full;
            full, stack := PushFailure(stack, sp, f);
            if full {
              return -2;
            }
            pc, sp := if op == C_FAILURE_JUMP then pc + 3 else x, sp + 1;
            assert stack[..sp] == c.stack + [f] && |c.stack| < MAX_FAILURES;
          } else {
            var alive;
            alive, pc, t, sp := StepOrFail(buffer[..used], pc, syntax, text, t, stack, sp);
            if !alive {
              return -1;
            }
          }
          assert buffer[..used] == code;
          assert GoesOn(re, code, text, pos, c, born, Config(pc, t, stack[..sp]), born');
          GoesOnParts(re, code, text, pos, c, born, Config(pc, t, stack[..sp]), born');
          born := born';
        }
      }
    }

    ghost predicate Valid()
      reads this, buffer, fastmap
    {
      Ready() && fastmap.Length == 256 && fastmap as object != buffer as object
        && (fastmapAccurate ==> MapOk(re, fastmap[..], canBeNull, anchor))
    }

    /** re_compile_fastmap: the first-character map, and whether a match must begin a line or the text. */
    method CompileFastmap()
      requires Valid()
      modifies `fastmapAccurate, `canBeNull, `anchor, fastmap
      ensures Valid() && fastmapAccurate
    {
      hide *;
      MeansValid();
      if fastmapAccurate {
        return;
      }
      ghost var code := buffer[..used];
      CodeWalk(re, code);
      canBeNull := DoCompileFastmap(buffer[..used], 0, fastmap, AllStarts(re));
      if buffer[0] == C_BOL {
        anchor := 1;
      } else if buffer[0] == C_BEGBUF {
        anchor := 2;
      } else {
        anchor := 0;
      }
      fastmapAccurate := true;
      MapAt(re, code, fastmap[..], canBeNull, anchor);
      MeansValid();
    }

    /** re_search_2 forwards on one string: where the pattern matches first, and where that match ends. */
    method Search(text: seq<byte>, start: nat, count: nat) returns (r: int, end: nat)
      requires Valid() && start + count <= |text|
      modifies `fastmapAccurate, `canBeNull, `anchor, fastmap, buffer
      ensures Valid() && buffer[used..] == old(buffer[used..])
      ensures SearchRight(re, text, start, count, r)
      ensures r >= 0 ==> Right(re, text, r, Found(end))
    {
      hide *;
      CompileFastmap();
      MeansValid();
      CodeParts(re, buffer[..used]);
      var pos, range: int := start, count;
      var usesMap := canBeNull != 1; // 2: the empty match is possible at the end of the text only
      ghost var firsts, rest := fastmap[..], buffer[used..];
      NoneYet(re, text, start);
      assert Tried(re, text, start, pos);
      if anchor == 2 {
        SearchBegBuf(re, text, start, count, firsts, canBeNull, anchor);
        if pos != 0 {
          return -1, 0;
        }
        range := 0;
      }
      while range >= 0
        modifies buffer
        invariant fastmap[..] == firsts && fastmap as object != buffer as object
        invariant Valid() && Ready() && used <= buffer.Length && buffer[used..] == rest
        invariant range >= -1 && start <= pos && pos + range == (if anchor == 2 then start else start + count)
        invariant Tried(re, text, start, pos)
      {
        if usesMap {
          while range != 0 && !fastmap[text[pos]]
            modifies {}
            invariant buffer[used..] == rest
            invariant range >= 0 && start <= pos && pos + range == (if anchor == 2 then start else start + count)
            invariant Tried(re, text, start, pos)
          {
            SkipByMap(re, text, pos, firsts, canBeNull, anchor);
            TriedMore(re, text, start, pos);
            pos, range := pos + 1, range - 1;
          }
          if pos == |text| && canBeNull == 0 {
            SkipEnd(re, text, firsts, canBeNull, anchor);
            TriedMore(re, text, start, pos);
            SearchNone(re, text, start, count, if anchor == 2 then start else start + count, firsts, canBeNull, anchor);
            return -1, 0;
          }
        }
        if anchor == 1 && pos > 0 && text[pos - 1] != NEWLINE {
          SkipByAnchor(re, text, pos, firsts, canBeNull, anchor);
        } else {
          var ret := Match(text, pos);
          assert fastmap[..] == firsts;
          MeansValid();
          RightHere(re, text, pos, FromInt(ret, pos));
          IntMeans(ret, pos);
          SearchEnds(re, text, start, count, pos, FromInt(ret, pos));
          if ret >= 0 {
            return pos, pos + ret;
          }
          if ret == -2 {
            return -2, 0;
          }
        }
        TriedMore(re, text, start, pos);
        pos, range := pos + 1, range - 1;
      }
      SearchNone(re, text, start, count, if anchor == 2 then start else start + count, firsts, canBeNull, anchor);
      return -1, 0;
    }

    lemma MeansValid()
      ensures Ready() <==> used <= buffer.Length && CodeOk(re, buffer[..used])
      ensures Valid() <==>
        && Ready() && fastmap.Length == 256 && fastmap as object != buffer as object
        && (fastmapAccurate ==> MapOk(re, fastmap[..], canBeNull, anchor))
    {
      hide CodeOk, MapOk;
    }

    lemma IsReady()
      ensures Ready() <==> used <= buffer.Length && CodeOk(re, buffer[..used])
    {
    }

    lemma StillReady(text: seq<byte>, pos: nat, c: Config, born: seq<nat>)
      requires used <= buffer.Length && Running(re, buffer[..used], text, pos, c, born)
      ensures Ready()
    {
      hide CodeOk, Good, Sound, Reached;
    }
  }
}
