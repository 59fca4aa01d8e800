/** The matcher as a machine: a program counter, a text position and a stack of failure points.
    It runs the program as rewritten so far, and every step keeps what makes its answer right. */
module RegexMachine {
  import opened RegexSyntax
  import opened RegexProgram
  import opened RegexStructure
  import opened RegexBacktrack
  import opened RegexFirst

  /** A dummy failure point has no text; popping it fails again. */
  datatype FailurePoint = NoText(code: int) | AtText(code: int, text: nat)

  datatype Config = Config(pc: int, t: nat, stack: seq<FailurePoint>)

  datatype Next = Go(c: Config) | Stop(o: Outcome)

  function Top(stack: seq<FailurePoint>): FailurePoint
    requires stack != []
  {
    stack[|stack| - 1]
  }

  function Rest<T>(stack: seq<T>): seq<T>
    requires stack != []
  {
    stack[..|stack| - 1]
  }

  function Resume(stack: seq<FailurePoint>): Next
    decreases |stack|
  {
    if stack == [] then Stop(Fail)
    else match Top(stack)
      case NoText(_) => Resume(Rest(stack))
      case AtText(code, text) => Go(Config(code, text, Rest(stack)))
  }

  function Step(q: Program, text: seq<byte>, c: Config): Next
    requires 0 <= c.pc < |q| && c.t <= |text|
  {
    var i := q[c.pc];
    if i.End? then Stop(Found(c.t))
    else if !i.Passes(text, c.t) then Resume(c.stack)
    else if i.Fork? || i.Dummy? then
      if |c.stack| >= MAX_FAILURES then Stop(Overflow)
      else Go(Config(i.next, c.t, c.stack + [if i.Fork? then AtText(i.alt, c.t) else NoText(i.alt)]))
    else if i.UpdateJump? && c.stack != [] then
      Go(Config(i.next, c.t, Rest(c.stack) + [AtText(Top(c.stack).code, c.t)]))
    else Go(Config(i.next, c.t + i.Width(), c.stack))
  }

  /** From configuration c the machine goes to d in n steps. */
  predicate Reaches(q: Program, text: seq<byte>, c: Config, d: Config, n: nat)
    decreases n
  {
    if n == 0 then c == d
    else 0 <= c.pc < |q| && c.t <= |text| && Step(q, text, c).Go? && Reaches(q, text, Step(q, text, c).c, d, n - 1)
  }

  predicate StopsAt(q: Program, text: seq<byte>, d: Config, o: Outcome) {
    0 <= d.pc < |q| && d.t <= |text| && Step(q, text, d) == Stop(o)
  }

  /** From configuration c the machine comes to the answer o. */
  ghost predicate Answers(q: Program, text: seq<byte>, c: Config, o: Outcome) {
    exists d: Config, n: nat :: Reaches(q, text, c, d, n) && StopsAt(q, text, d, o)
  }

  lemma {:induction false} ReachesOn(q: Program, text: seq<byte>, c: Config, d: Config, n: nat, e: Config, m: nat)
    requires Reaches(q, text, c, d, n) && Reaches(q, text, d, e, m)
    ensures Reaches(q, text, c, e, n + m)
    decreases n
  {
    if n > 0 { ReachesOn(q, text, Step(q, text, c).c, d, n - 1, e, m); }
  }

  lemma OneStep(q: Program, text: seq<byte>, c: Config, d: Config)
    requires 0 <= c.pc < |q| && c.t <= |text| && Step(q, text, c) == Go(d)
    ensures Reaches(q, text, c, d, 1)
  {
    assert Reaches(q, text, d, d, 0);
  }

  /** The machine has one answer at most. */
  lemma AnswerUnique(q: Program, text: seq<byte>, c: Config, o: Outcome, o': Outcome)
    requires Answers(q, text, c, o) && Answers(q, text, c, o')
    ensures o == o'
  {
    hide Reaches, StopsAt;
    var d: Config, n: nat :| Reaches(q, text, c, d, n) && StopsAt(q, text, d, o);
    var d': Config, n': nat :| Reaches(q, text, c, d', n') && StopsAt(q, text, d', o');
    SameStop(q, text, c, d, n, o, d', n', o');
  }

  lemma {:induction false} SameStop(q: Program, text: seq<byte>, c: Config, d: Config, n: nat, o: Outcome, d': Config,
          n': nat, o': Outcome)
    requires Reaches(q, text, c, d, n) && StopsAt(q, text, d, o)
    requires Reaches(q, text, c, d', n') && StopsAt(q, text, d', o')
    ensures o == o'
    decreases n
  {
    if n > 0 && n' > 0 { SameStop(q, text, Step(q, text, c).c, d, n - 1, o, d', n' - 1, o'); }
  }

  // ----- where the machine can be -----

  /** pc is in no simple loop. */
  ghost predicate Outside(p: Program, S: set<int>, pc: int) {
    forall s, cl :: SimpleLoop(p, S, s, cl) ==> !(p[s].next + 3 <= pc <= s)
  }

  /** In the body of the loop of s, entered at text position t0, the machine has consumed nothing
      up to the first consuming instruction, and after it the character at t0 and maybe more. */
  ghost predicate EntryText(p: Program, text: seq<byte>, s: int, pc: int, t: nat, t0: nat)
    requires 0 <= s < |p| && p[s].StarJump?
  {
    var ea := EaterAt(p, p[s].next + 3);
    if pc <= ea then t0 == t
    else t0 < t && t0 < |text| && 0 <= ea < |p| && p[ea].Eat? && Accepts(p[ea].cl, text[t0])
  }

  /** While pc is in the simple loop of s, the topmost failure point is that loop's own.  `born`
      gives for each failure point the text position at which it was pushed or last updated. */
  ghost predicate InLoop(p: Program, text: seq<byte>, s: int, c: Config, born: seq<nat>)
  {
    0 <= s < |p| && p[s].StarJump? && p[s].next + 3 <= c.pc <= s ==>
      && |born| == |c.stack| > 0
      && Top(c.stack).code == s + 3
      && EntryText(p, text, s, c.pc, c.t, born[|born| - 1])
  }

  ghost predicate PointOk(p: Program, S: set<int>, text: seq<byte>, f: FailurePoint, t0: nat) {
    f.code in S && Outside(p, S, f.code) && t0 <= |text| && (f.AtText? ==> f.text == t0)
  }

  ghost predicate PointsOk(p: Program, S: set<int>, text: seq<byte>, stack: seq<FailurePoint>, born: seq<nat>) {
    |born| == |stack| && forall k :: 0 <= k < |stack| ==> PointOk(p, S, text, stack[k], born[k])
  }

  ghost predicate ConfigOk(p: Program, S: set<int>, text: seq<byte>, c: Config, born: seq<nat>) {
    && c.pc in S && c.t <= |text| && |born| == |c.stack| <= MAX_FAILURES
    && PointsOk(p, S, text, c.stack, born)
    && forall s, cl :: SimpleLoop(p, S, s, cl) ==> InLoop(p, text, s, c, born)
  }

  /** How a step changes `born`. */
  ghost function Born(q: Program, text: seq<byte>, c: Config, born: seq<nat>): seq<nat>
    requires 0 <= c.pc < |q| && c.t <= |text| && |born| == |c.stack|
  {
    var i := q[c.pc];
    if !i.Passes(text, c.t) then
      (match Resume(c.stack) case Go(d) => if |d.stack| <= |born| then born[..|d.stack|] else born case Stop(_) => [])
    else if i.Fork? || i.Dummy? then born + [c.t]
    else if i.UpdateJump? && c.stack != [] then Rest(born) + [c.t]
    else born
  }

  /** On the straight way from b, the eater met first is the same from every start before it. */
  lemma {:induction false} SameEater(p: Program, S: set<int>, b: int, pc: int)
    requires Sound(p, S) && b in S && pc in S && EaterAt(p, b) != -1
    requires b <= pc <= EaterAt(p, b)
    ensures 0 <= pc < |p| && EaterAt(p, pc) == EaterAt(p, b)
    decreases |p| - b
  {
    EaterAhead(p, S, b);
    if b < pc {
      SoundAt(p, S, b);
      NoOverlap(p, 0, b, pc);
      SameEater(p, S, p[b].next, pc);
    }
  }

  lemma MoveInLoop(p: Program, S: set<int>, text: seq<byte>, c: Config, born: seq<nat>, s: int, cl: CharClass)
    requires Sound(p, S) && SimpleLoop(p, S, s, cl)
    requires c.pc in S && 0 <= c.pc < |p| && c.t <= |text| && |born| == |c.stack| && InLoop(p, text, s, c, born)
    requires !p[c.pc].Fork? && !p[c.pc].Dummy? && p[c.pc].Passes(text, c.t)
    ensures InLoop(p, text, s, Config(p[c.pc].next, c.t + p[c.pc].Width(), c.stack), born)
  {
    var b, x := p[s].next + 3, p[c.pc].next;
    if b <= x <= s {
      SoundPair(p, S, s, c.pc);
      SoundAt(p, S, s);
      SoundAt(p, S, c.pc);
      hide Sound;
      assert Leads(p[c.pc], x);
      EaterAhead(p, S, b);
      if c.pc <= EaterAt(p, b) {
        SameEater(p, S, b, c.pc);
        if !p[c.pc].Eat? { EaterAhead(p, S, x); }
      }
    }
  }

  lemma PushInLoop(p: Program, S: set<int>, text: seq<byte>, c: Config, born: seq<nat>, f: FailurePoint, s: int,
          cl: CharClass)
    requires Sound(p, S) && SimpleLoop(p, S, s, cl)
    requires c.pc in S && 0 <= c.pc < |p| && c.t <= |text| && |born| == |c.stack|
    requires (p[c.pc].Fork? || p[c.pc].Dummy?) && f.code == p[c.pc].alt
    ensures InLoop(p, text, s, Config(p[c.pc].next, c.t, c.stack + [f]), born + [c.t])
  {
    var b, x := p[s].next + 3, p[c.pc].next;
    if b <= x <= s {
      SoundPair(p, S, s, c.pc);
      SoundAt(p, S, s);
      SoundAt(p, S, c.pc);
      hide Sound;
      assert Leads(p[c.pc], x);
      EaterAhead(p, S, b);
    }
  }

  lemma UpdateInLoop(p: Program, S: set<int>, text: seq<byte>, c: Config, born: seq<nat>, s0: int, cl0: CharClass,
          s: int, cl: CharClass)
    requires Sound(p, S) && SimpleLoop(p, S, s, cl) && SimpleLoop(p, S, s0, cl0)
    requires c.pc == s0 && c.t <= |text| && |born| == |c.stack| && c.stack != [] && Top(c.stack).code == s0 + 3
    ensures InLoop(p, text, s, Config(p[s0].next + 3, c.t, Rest(c.stack) + [AtText(s0 + 3, c.t)]), Rest(born) + [c.t])
  {
    var b, x := p[s].next + 3, p[s0].next + 3;
    if b <= x <= s {
      SoundAt(p, S, s);
      SoundAt(p, S, s0);
      SoundPair(p, S, s, p[s0].next);
      hide Sound;
      assert Leads(p[p[s0].next], x);
      EaterAhead(p, S, b);
    }
  }

  lemma PushedOutside(p: Program, S: set<int>, pc: int)
    requires Sound(p, S) && pc in S && 0 <= pc < |p| && (p[pc].Fork? || p[pc].Dummy?)
    ensures p[pc].alt in S && Outside(p, S, p[pc].alt)
  {
    hide Sound;
    SoundAt(p, S, pc);
    forall s, cl | SimpleLoop(p, S, s, cl)
      ensures !(p[s].next + 3 <= p[pc].alt <= s)
    {
      SoundAt(p, S, s);
      EaterAhead(p, S, p[s].next + 3);
      SoundPair(p, S, s, pc);
      assert Leads(p[pc], p[pc].alt);
    }
  }

  lemma {:induction false} ResumeOk(p: Program, S: set<int>, text: seq<byte>, stack: seq<FailurePoint>, born: seq<nat>)
    requires PointsOk(p, S, text, stack, born) && |stack| <= MAX_FAILURES && Resume(stack).Go?
    ensures |Resume(stack).c.stack| < |stack|
    ensures ConfigOk(p, S, text, Resume(stack).c, born[..|Resume(stack).c.stack|])
    decreases |stack|
  {
    hide SimpleLoop;
    var n := |stack| - 1;
    assert PointOk(p, S, text, stack[n], born[n]);
    if Top(stack).NoText? {
      ResumeOk(p, S, text, Rest(stack), Rest(born));
      var d := Resume(stack).c;
      assert Rest(born)[..|d.stack|] == born[..|d.stack|];
    } else {
      hide Outside;
      var d := Resume(stack).c;
      forall s, cl | SimpleLoop(p, S, s, cl)
        ensures InLoop(p, text, s, d, born[..n])
      {
        NotInside(p, S, d.pc, s, cl);
      }
    }
  }

  lemma NotInside(p: Program, S: set<int>, pc: int, s: int, cl: CharClass)
    requires Outside(p, S, pc) && SimpleLoop(p, S, s, cl)
    ensures 0 <= s < |p| && p[s].StarJump? && !(p[s].next + 3 <= pc <= s)
  {
  }

  lemma MoveOk(p: Program, S: set<int>, text: seq<byte>, c: Config, born: seq<nat>)
    requires Sound(p, S) && ConfigOk(p, S, text, c, born) && 0 <= c.pc < |p|
    requires !p[c.pc].Fork? && !p[c.pc].Dummy? && p[c.pc].Passes(text, c.t)
    ensures ConfigOk(p, S, text, Config(p[c.pc].next, c.t + p[c.pc].Width(), c.stack), born)
  {
    hide Sound, SimpleLoop, InLoop, PointsOk;
    SoundAt(p, S, c.pc);
    forall s, cl | SimpleLoop(p, S, s, cl)
      ensures InLoop(p, text, s, Config(p[c.pc].next, c.t + p[c.pc].Width(), c.stack), born)
    {
      MoveInLoop(p, S, text, c, born, s, cl);
    }
  }

  lemma PushOk(p: Program, S: set<int>, text: seq<byte>, c: Config, born: seq<nat>, f: FailurePoint)
    requires Sound(p, S) && ConfigOk(p, S, text, c, born) && 0 <= c.pc < |p| && |c.stack| < MAX_FAILURES
    requires (p[c.pc].Fork? && f == AtText(p[c.pc].alt, c.t)) || (p[c.pc].Dummy? && f == NoText(p[c.pc].alt))
    ensures ConfigOk(p, S, text, Config(p[c.pc].next, c.t, c.stack + [f]), born + [c.t])
  {
    hide Sound, Outside, SimpleLoop, InLoop;
    SoundAt(p, S, c.pc);
    PushedOutside(p, S, c.pc);
    forall s, cl | SimpleLoop(p, S, s, cl)
      ensures InLoop(p, text, s, Config(p[c.pc].next, c.t, c.stack + [f]), born + [c.t])
    {
      PushInLoop(p, S, text, c, born, f, s, cl);
    }
  }

  lemma UpdateOk(p: Program, S: set<int>, text: seq<byte>, c: Config, born: seq<nat>, s0: int, cl0: CharClass)
    requires Sound(p, S) && ConfigOk(p, S, text, c, born) && SimpleLoop(p, S, s0, cl0) && c.pc == s0
    ensures c.stack != [] && Top(c.stack).code == s0 + 3
    ensures ConfigOk(p, S, text, Config(p[s0].next + 3, c.t, Rest(c.stack) + [AtText(s0 + 3, c.t)]), Rest(born) + [c.t])
  {
    hide *;
    UpdateTarget(p, S, s0, cl0);
    AtLoopEnd(p, S, text, c, born, s0, cl0);
    PointsParts(p, S, text, c, born);
    var d := Config(p[s0].next + 3, c.t, Rest(c.stack) + [AtText(s0 + 3, c.t)]);
    forall s, cl | SimpleLoop(p, S, s, cl)
      ensures InLoop(p, text, s, d, Rest(born) + [c.t])
    {
      UpdateInLoop(p, S, text, c, born, s0, cl0, s, cl);
    }
    PointsUpdated(p, S, text, c.stack, born, s0 + 3, c.t);
    ConfigIntro(p, S, text, d, Rest(born) + [c.t]);
  }

  lemma UpdateTarget(p: Program, S: set<int>, s: int, cl: CharClass)
    requires Sound(p, S) && SimpleLoop(p, S, s, cl)
    ensures 0 <= s < |p| && p[s].StarJump? && p[s].next + 3 in S && 0 <= p[s].next + 3 < |p|
  {
    hide Sound;
    SoundAt(p, S, s);
    SoundAt(p, S, p[s].next + 3);
  }

  lemma PointsParts(p: Program, S: set<int>, text: seq<byte>, c: Config, born: seq<nat>)
    requires ConfigOk(p, S, text, c, born)
    ensures c.pc in S && c.t <= |text| && |born| == |c.stack| <= MAX_FAILURES && PointsOk(p, S, text, c.stack, born)
  {
    hide PointsOk, SimpleLoop, InLoop;
  }

  lemma ConfigIntro(p: Program, S: set<int>, text: seq<byte>, c: Config, born: seq<nat>)
    requires c.pc in S && c.t <= |text| && |born| == |c.stack| <= MAX_FAILURES && PointsOk(p, S, text, c.stack, born)
    requires forall s, cl :: SimpleLoop(p, S, s, cl) ==> InLoop(p, text, s, c, born)
    ensures ConfigOk(p, S, text, c, born)
  {
    hide PointsOk, SimpleLoop, InLoop;
  }

  /** The topmost failure point has moved to text position t. */
  lemma PointsUpdated(p: Program, S: set<int>, text: seq<byte>, stack: seq<FailurePoint>, born: seq<nat>, code: int,
          t: nat)
    requires PointsOk(p, S, text, stack, born) && stack != [] && Top(stack).code == code && t <= |text|
    ensures PointsOk(p, S, text, Rest(stack) + [AtText(code, t)], Rest(born) + [t])
    ensures |Rest(stack) + [AtText(code, t)]| == |stack| && |Rest(born) + [t]| == |born|
  {
    hide Outside;
    assert PointOk(p, S, text, stack[|stack| - 1], born[|stack| - 1]);
  }

  /** At the end of a simple loop its failure point is on top, and the iteration consumed a
      character that its body can consume first. */
  lemma AtLoopEnd(p: Program, S: set<int>, text: seq<byte>, c: Config, born: seq<nat>, s: int, cl: CharClass)
    requires Sound(p, S) && ConfigOk(p, S, text, c, born) && SimpleLoop(p, S, s, cl) && c.pc == s
    ensures c.stack != [] && |born| == |c.stack| && Top(c.stack).code == s + 3 && c.t <= |text|
    ensures var t0 := born[|born| - 1];
      t0 < c.t && t0 < |text| && Accepts(cl, text[t0]) && (Top(c.stack).AtText? ==> Top(c.stack).text == t0)
  {
    hide Sound;
    SoundAt(p, S, s);
    assert InLoop(p, text, s, c, born);
    assert PointOk(p, S, text, c.stack[|born| - 1], born[|born| - 1]);
  }

  /** Every step leads from a good configuration to a good configuration. */
  lemma StepOk(p: Program, S: set<int>, q: Program, text: seq<byte>, c: Config, born: seq<nat>)
    requires Sound(p, S) && Rewritten(p, S, q) && ConfigOk(p, S, text, c, born)
    requires |q| == |p| && 0 <= c.pc < |q| && Step(q, text, c).Go?
    ensures ConfigOk(p, S, text, Step(q, text, c).c, Born(q, text, c, born))
  {
    hide Sound, Rewritten, SimpleLoop, InLoop, PointsOk, Updatable;
    SoundAt(p, S, c.pc);
    RewrittenAt(p, S, q, c.pc);
    var i, d, born' := q[c.pc], Step(q, text, c).c, Born(q, text, c, born);
    if !i.Passes(text, c.t) {
      ResumeOk(p, S, text, c.stack, born);
    } else if i.Fork? || i.Dummy? {
      PushOk(p, S, text, c, born, Top(d.stack));
    } else if i.UpdateJump? {
      var cl :| Updatable(p, S, c.pc, cl);
      UpdatableParts(p, S, c.pc, cl);
      UpdateOk(p, S, text, c, born, c.pc, cl);
    } else {
      MoveOk(p, S, text, c, born);
    }
  }
}
