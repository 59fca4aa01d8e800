/** Whole runs of the machine: what it answers is right, and it answers after boundedly many steps. */
module RegexRuns {
  import opened RegexSyntax
  import opened RegexProgram
  import opened RegexStructure
  import opened RegexBacktrack
  import opened RegexFirst
  import opened RegexMachine

  // ----- soundness: whatever can be reached from here can be reached from the start -----

  ghost predicate CanEnd(p: Program, text: seq<byte>, pc: int, t: nat, e: nat)
    requires t <= |text|
  {
    exists n: nat :: Acc(p, text, pc, t, e, n)
  }

  ghost predicate Covers(p: Program, text: seq<byte>, pos: nat, pc: int, t: nat)
    requires pos <= |text|
  {
    t <= |text| && forall e: nat :: CanEnd(p, text, pc, t, e) ==> CanEnd(p, text, 0, pos, e)
  }

  ghost predicate AllCover(p: Program, text: seq<byte>, pos: nat, c: Config)
    requires pos <= |text|
  {
    && Covers(p, text, pos, c.pc, c.t)
    && forall k :: 0 <= k < |c.stack| && c.stack[k].AtText? ==> Covers(p, text, pos, c.stack[k].code, c.stack[k].text)
  }

  lemma CoversNext(p: Program, text: seq<byte>, pos: nat, pc: int, t: nat)
    requires pos <= |text| && Covers(p, text, pos, pc, t) && 0 <= pc < |p| && p[pc].Passes(text, t)
    ensures Covers(p, text, pos, p[pc].next, t + p[pc].Width())
  {
    forall e: nat | CanEnd(p, text, p[pc].next, t + p[pc].Width(), e)
      ensures CanEnd(p, text, 0, pos, e)
    {
      var n: nat :| Acc(p, text, p[pc].next, t + p[pc].Width(), e, n);
      assert Acc(p, text, pc, t, e, n + 1);
      assert CanEnd(p, text, pc, t, e);
    }
  }

  lemma CoversAlt(p: Program, text: seq<byte>, pos: nat, pc: int, t: nat)
    requires pos <= |text| && Covers(p, text, pos, pc, t) && 0 <= pc < |p| && p[pc].Fork?
    ensures Covers(p, text, pos, p[pc].alt, t)
  {
    forall e: nat | CanEnd(p, text, p[pc].alt, t, e)
      ensures CanEnd(p, text, 0, pos, e)
    {
      var n: nat :| Acc(p, text, p[pc].alt, t, e, n);
      ViaAlt(p, text, pc, t, e, n);
      assert CanEnd(p, text, pc, t, e);
    }
  }

  lemma {:induction false} ResumeCovers(p: Program, text: seq<byte>, pos: nat, stack: seq<FailurePoint>)
    requires pos <= |text| && Resume(stack).Go?
    requires forall k :: 0 <= k < |stack| && stack[k].AtText? ==> Covers(p, text, pos, stack[k].code, stack[k].text)
    ensures AllCover(p, text, pos, Resume(stack).c)
    decreases |stack|
  {
    hide Covers;
    if Top(stack).NoText? { ResumeCovers(p, text, pos, Rest(stack)); }
  }

  lemma StepCovers(p: Program, S: set<int>, q: Program, text: seq<byte>, pos: nat, c: Config, born: seq<nat>)
    requires Sound(p, S) && Rewritten(p, S, q) && ConfigOk(p, S, text, c, born) && pos <= |text|
    requires |q| == |p| && 0 <= c.pc < |q| && Step(q, text, c).Go?
    requires AllCover(p, text, pos, c)
    ensures AllCover(p, text, pos, Step(q, text, c).c)
  {
    hide Sound, Rewritten, SimpleLoop, InLoop, PointsOk, Covers, Updatable;
    SoundAt(p, S, c.pc);
    RewrittenAt(p, S, q, c.pc);
    var i := q[c.pc];
    if !i.Passes(text, c.t) {
      ResumeCovers(p, text, pos, c.stack);
    } else if i.UpdateJump? {
      var cl :| Updatable(p, S, c.pc, cl);
      UpdateCovers(p, S, text, pos, c, born, cl);
    } else {
      CoversNext(p, text, pos, c.pc, c.t);
      if i.Fork? { CoversAlt(p, text, pos, c.pc, c.t); }
    }
  }

  lemma UpdateCovers(p: Program, S: set<int>, text: seq<byte>, pos: nat, c: Config, born: seq<nat>, cl: CharClass)
    requires Sound(p, S) && ConfigOk(p, S, text, c, born) && pos <= |text|
    requires Updatable(p, S, c.pc, cl) && AllCover(p, text, pos, c)
    ensures 0 <= c.pc < |p| && p[c.pc].StarJump? && c.stack != [] && Top(c.stack).code == c.pc + 3
    ensures AllCover(p, text, pos, Config(p[c.pc].next + 3, c.t, Rest(c.stack) + [AtText(c.pc + 3, c.t)]))
  {
    hide Sound, SimpleLoop, ConfigOk, Updatable, Covers, Harmless, Forgettable;
    UpdatableParts(p, S, c.pc, cl);
    SoundAt(p, S, c.pc);
    AtLoopEnd(p, S, text, c, born, c.pc, cl);
    CoversNext(p, text, pos, c.pc, c.t);
    CoversNext(p, text, pos, p[c.pc].next, c.t);
    CoversAlt(p, text, pos, p[c.pc].next, c.t);
  }

  // ----- completeness: if the start can accept, then so can the machine or a failure point -----

  ghost predicate Alive(p: Program, text: seq<byte>, pc: int, t: nat) {
    t <= |text| && exists e: nat, n: nat :: Acc(p, text, pc, t, e, n)
  }

  ghost predicate StackAlive(p: Program, text: seq<byte>, stack: seq<FailurePoint>) {
    exists k :: 0 <= k < |stack| && stack[k].AtText? && Alive(p, text, stack[k].code, stack[k].text)
  }

  ghost predicate SomeAlive(p: Program, text: seq<byte>, c: Config) {
    Alive(p, text, c.pc, c.t) || StackAlive(p, text, c.stack)
  }

  /** An instruction that can accept does so by way of its successors. */
  lemma AliveOnward(p: Program, text: seq<byte>, pc: int, t: nat)
    requires Alive(p, text, pc, t) && 0 <= pc < |p| && !p[pc].End?
    ensures || (p[pc].Passes(text, t) && Alive(p, text, p[pc].next, t + p[pc].Width()))
            || (p[pc].Fork? && Alive(p, text, p[pc].alt, t))
  {
    var e: nat, n: nat :| Acc(p, text, pc, t, e, n);
    var m: nat := n - 1;
    assert (p[pc].Passes(text, t) && Acc(p, text, p[pc].next, t + p[pc].Width(), e, m))
      || (p[pc].Fork? && Acc(p, text, p[pc].alt, t, e, m));
  }

  lemma {:induction false} ResumeAlive(p: Program, text: seq<byte>, stack: seq<FailurePoint>)
    requires StackAlive(p, text, stack)
    ensures Resume(stack).Go? && SomeAlive(p, text, Resume(stack).c)
    decreases |stack|
  {
    hide Alive;
    var k :| 0 <= k < |stack| && stack[k].AtText? && Alive(p, text, stack[k].code, stack[k].text);
    if k < |stack| - 1 { assert Rest(stack)[k] == stack[k]; }
    if Top(stack).NoText? { ResumeAlive(p, text, Rest(stack)); }
  }

  lemma StackAliveMore(p: Program, text: seq<byte>, stack: seq<FailurePoint>, f: FailurePoint)
    ensures StackAlive(p, text, stack + [f]) <==>
      StackAlive(p, text, stack) || (f.AtText? && Alive(p, text, f.code, f.text))
  {
    hide Alive;
    var all := stack + [f];
    if StackAlive(p, text, stack) {
      var k :| 0 <= k < |stack| && stack[k].AtText? && Alive(p, text, stack[k].code, stack[k].text);
      assert all[k] == stack[k];
    }
    if f.AtText? && Alive(p, text, f.code, f.text) { assert all[|stack|] == f; }
  }

  lemma StepAlive(p: Program, S: set<int>, q: Program, text: seq<byte>, c: Config, born: seq<nat>)
    requires Sound(p, S) && Harmless(p, S) && Rewritten(p, S, q) && ConfigOk(p, S, text, c, born)
    requires |q| == |p| && 0 <= c.pc < |q| && SomeAlive(p, text, c)
    ensures Step(q, text, c).Go? ==> SomeAlive(p, text, Step(q, text, c).c)
    ensures Step(q, text, c).Stop? ==> !Step(q, text, c).o.Fail?
  {
    hide Sound, Rewritten, SimpleLoop, InLoop, PointsOk, Alive, StackAlive, Harmless, Updatable;
    SoundAt(p, S, c.pc);
    RewrittenAt(p, S, q, c.pc);
    var i := q[c.pc];
    if Alive(p, text, c.pc, c.t) && !i.End? { AliveOnward(p, text, c.pc, c.t); }
    if i.End? {
    } else if !i.Passes(text, c.t) {
      ResumeAlive(p, text, c.stack);
    } else if i.Fork? || i.Dummy? {
      StackAliveMore(p, text, c.stack, if i.Fork? then AtText(i.alt, c.t) else NoText(i.alt));
    } else if i.UpdateJump? {
      var cl :| Updatable(p, S, c.pc, cl);
      UpdateAlive(p, S, text, c, born, cl);
    }
  }

  lemma UpdateAlive(p: Program, S: set<int>, text: seq<byte>, c: Config, born: seq<nat>, cl: CharClass)
    requires Sound(p, S) && Harmless(p, S) && ConfigOk(p, S, text, c, born)
    requires Updatable(p, S, c.pc, cl) && SomeAlive(p, text, c)
    ensures 0 <= c.pc < |p| && p[c.pc].StarJump? && c.stack != [] && Top(c.stack).code == c.pc + 3
    ensures SomeAlive(p, text, Config(p[c.pc].next + 3, c.t, Rest(c.stack) + [AtText(c.pc + 3, c.t)]))
  {
    hide Sound, SimpleLoop, ConfigOk, Updatable, Alive, StackAlive, Harmless, Forgettable, Accepts;
    UpdatableParts(p, S, c.pc, cl);
    SoundAt(p, S, c.pc);
    AtLoopEnd(p, S, text, c, born, c.pc, cl);
    assert c.stack == Rest(c.stack) + [Top(c.stack)];
    LoopAlive(p, text, c.pc, p[c.pc].next, c.t, Rest(c.stack), Top(c.stack), born[|born| - 1], cl);
  }

  lemma LoopAlive(p: Program, text: seq<byte>, s: int, f: int, t: nat, rest: seq<FailurePoint>, top: FailurePoint,
          t0: nat, cl: CharClass)
    requires 0 <= s < |p| && p[s] == StarJump(f) && 0 <= f < |p| && p[f] == Fork(f + 3, s + 3)
    requires Forgettable(p, s + 3, cl) && t0 < |text| && t <= |text| && Accepts(cl, text[t0])
    requires top.code == s + 3 && (top.AtText? ==> top.text == t0)
    requires Alive(p, text, s, t) || StackAlive(p, text, rest + [top])
    ensures SomeAlive(p, text, Config(f + 3, t, rest + [AtText(s + 3, t)]))
  {
    hide Alive, StackAlive, Forgettable, Accepts;
    StackAliveMore(p, text, rest, top);
    StackAliveMore(p, text, rest, AtText(s + 3, t));
    if Alive(p, text, s, t) {
      AliveOnward(p, text, s, t);
      AliveOnward(p, text, f, t);
    } else if top.AtText? && Alive(p, text, s + 3, t0) {
      StillAlive(p, text, s + 3, cl, t0, t);
    }
  }

  lemma StillAlive(p: Program, text: seq<byte>, exit: int, cl: CharClass, t: nat, u: nat)
    requires Forgettable(p, exit, cl) && t < |text| && u <= |text| && Accepts(cl, text[t]) && Alive(p, text, exit, t)
    ensures Alive(p, text, exit, u)
  {
    var e: nat, n: nat :| Acc(p, text, exit, t, e, n);
    assert EndsFreely(p, text, exit);
    var m: nat :| EndsAnywhere(p, text, exit, m);
    assert Acc(p, text, exit, u, u, m);
  }

  // ----- refinement: the machine computes what plain backtracking computes -----

  ghost predicate InS(S: set<int>, text: seq<byte>, stack: seq<FailurePoint>) {
    forall k :: 0 <= k < |stack| ==> stack[k].code in S && (stack[k].AtText? ==> stack[k].text <= |text|)
  }

  /** What the failure points answer, topmost first. */
  ghost function StackValue(p: Program, S: set<int>, text: seq<byte>, stack: seq<FailurePoint>): Outcome
    requires Sound(p, S) && |stack| <= MAX_FAILURES && InS(S, text, stack)
    decreases |stack|
  {
    if stack == [] then Fail
    else
      var f, rest := Top(stack), Rest(stack);
      var r := if f.NoText? then Fail else Backtrack(p, S, text, f.code, f.text, MAX_FAILURES - |rest|);
      if r.Fail? then StackValue(p, S, text, rest) else r
  }

  /** What the machine is going to answer, if plain backtracking has its way. */
  ghost function Value(p: Program, S: set<int>, text: seq<byte>, c: Config): Outcome
    requires Sound(p, S) && c.pc in S && c.t <= |text| && |c.stack| <= MAX_FAILURES && InS(S, text, c.stack)
  {
    var r := Backtrack(p, S, text, c.pc, c.t, MAX_FAILURES - |c.stack|);
    if r.Fail? then StackValue(p, S, text, c.stack) else r
  }

  lemma ConfigInS(p: Program, S: set<int>, text: seq<byte>, c: Config, born: seq<nat>)
    requires ConfigOk(p, S, text, c, born)
    ensures c.pc in S && c.t <= |text| && |c.stack| <= MAX_FAILURES && InS(S, text, c.stack)
  {
    hide SimpleLoop, InLoop, Outside;
  }

  lemma {:induction false} ResumeValue(p: Program, S: set<int>, text: seq<byte>, stack: seq<FailurePoint>)
    requires Sound(p, S) && |stack| <= MAX_FAILURES && InS(S, text, stack)
    ensures Resume(stack).Stop? ==> Resume(stack).o.Fail? && StackValue(p, S, text, stack).Fail?
    ensures Resume(stack).Go? ==>
      var c := Resume(stack).c;
      && c.pc in S && c.t <= |text| && |c.stack| <= MAX_FAILURES && InS(S, text, c.stack)
      && Value(p, S, text, c) == StackValue(p, S, text, stack)
    decreases |stack|
  {
    hide Sound;
    if stack != [] && Top(stack).NoText? { ResumeValue(p, S, text, Rest(stack)); }
  }

  lemma MoveValue(p: Program, S: set<int>, text: seq<byte>, c: Config)
    requires Sound(p, S) && c.pc in S && c.t <= |text| && |c.stack| <= MAX_FAILURES && InS(S, text, c.stack)
    requires 0 <= c.pc < |p| && p[c.pc].Passes(text, c.t) && !p[c.pc].Fork? && !p[c.pc].Dummy?
    ensures p[c.pc].next in S
    ensures Value(p, S, text, Config(p[c.pc].next, c.t + p[c.pc].Width(), c.stack)) == Value(p, S, text, c)
  {
    hide Sound, StackValue;
    RankFalls(p, S, c.pc);
  }

  lemma StackValueTop(p: Program, S: set<int>, text: seq<byte>, rest: seq<FailurePoint>, f: FailurePoint)
    requires Sound(p, S) && |rest| < MAX_FAILURES && InS(S, text, rest) && InS(S, text, rest + [f])
    requires f.code in S && (f.AtText? ==> f.text <= |text|)
    ensures StackValue(p, S, text, rest + [f]) ==
            var r := if f.NoText? then Fail else Backtrack(p, S, text, f.code, f.text, MAX_FAILURES - |rest|);
            if r.Fail? then StackValue(p, S, text, rest) else r
  {
    hide Sound, Backtrack, InS;
    assert Rest(rest + [f]) == rest;
  }

  lemma PushValue(p: Program, S: set<int>, text: seq<byte>, c: Config, f: FailurePoint)
    requires Sound(p, S) && c.pc in S && c.t <= |text| && |c.stack| < MAX_FAILURES && InS(S, text, c.stack)
    requires 0 <= c.pc < |p|
    requires (p[c.pc].Fork? && f == AtText(p[c.pc].alt, c.t)) || (p[c.pc].Dummy? && f == NoText(p[c.pc].alt))
    ensures p[c.pc].next in S && InS(S, text, c.stack + [f])
    ensures Value(p, S, text, Config(p[c.pc].next, c.t, c.stack + [f])) == Value(p, S, text, c)
  {
    hide Sound, Backtrack, StackValue;
    RankFalls(p, S, c.pc);
    PushOutcome(p, S, text, c.pc, c.t, MAX_FAILURES - |c.stack|);
    StackValueTop(p, S, text, c.stack, f);
  }

  lemma PushOutcome(p: Program, S: set<int>, text: seq<byte>, pc: int, t: nat, room: nat)
    requires Sound(p, S) && pc in S && 0 <= pc < |p| && t <= |text| && room > 0 && (p[pc].Fork? || p[pc].Dummy?)
    ensures p[pc].next in S && p[pc].alt in S
    ensures Backtrack(p, S, text, pc, t, room) ==
            var r := Backtrack(p, S, text, p[pc].next, t, room - 1);
            if r.Fail? && p[pc].Fork? then Backtrack(p, S, text, p[pc].alt, t, room) else r
  {
    hide Sound;
    RankFalls(p, S, pc);
  }

  /** Updating the loop's failure point instead of pushing another one changes nothing, as long as
      plain backtracking has room. */
  lemma UpdateValue(p: Program, S: set<int>, text: seq<byte>, s: int, f: int, t: nat, rest: seq<FailurePoint>,
          top: FailurePoint, t0: nat, cl: CharClass)
    requires Sound(p, S) && s in S && 0 <= s < |p| && p[s] == StarJump(f) && f in S && 0 <= f < |p|
      && p[f] == Fork(f + 3, s + 3)
    requires f + 3 in S && s + 3 in S
    requires Forgettable(p, s + 3, cl) && t0 < |text| && t <= |text| && Accepts(cl, text[t0])
    requires top.code == s + 3 && (top.AtText? ==> top.text == t0)
    requires |rest| < MAX_FAILURES && InS(S, text, rest) && InS(S, text, rest + [top])
      && InS(S, text, rest + [AtText(s + 3, t)])
    requires !Value(p, S, text, Config(s, t, rest + [top])).Overflow?
    ensures Value(p, S, text, Config(f + 3, t, rest + [AtText(s + 3, t)])) ==
      Value(p, S, text, Config(s, t, rest + [top]))
  {
    hide Sound, Forgettable, Accepts, Backtrack, StackValue, InS;
    var exit, b, room := s + 3, f + 3, MAX_FAILURES - |rest| - 1;
    LoopOutcome(p, S, text, s, f, t, room);
    StackValueTop(p, S, text, rest, top);
    StackValueTop(p, S, text, rest, AtText(exit, t));
    assert Rest(rest + [top]) == rest && Rest(rest + [AtText(exit, t)]) == rest;
    assert room > 0;
    MoreRoom(p, S, text, b, t, room - 1, room);
    if Backtrack(p, S, text, b, t, room).Fail? {
      MoreRoom(p, S, text, exit, t, room, room + 1);
      if Backtrack(p, S, text, exit, t, room + 1).Fail? && top.AtText?
        && Backtrack(p, S, text, exit, t0, room + 1).Found? {
        ExitFails(p, S, text, exit, cl, t0, t, room + 1);
      }
    }
  }

  /** A star jump goes back to its failure jump, which pushes the exit and tries the body. */
  lemma LoopOutcome(p: Program, S: set<int>, text: seq<byte>, s: int, f: int, t: nat, room: nat)
    requires Sound(p, S) && s in S && 0 <= s < |p| && p[s] == StarJump(f) && f in S && 0 <= f < |p|
      && p[f] == Fork(f + 3, s + 3)
    requires f + 3 in S && s + 3 in S && t <= |text|
    ensures Backtrack(p, S, text, s, t, room) ==
            if room == 0 then Overflow
            else
              var r := Backtrack(p, S, text, f + 3, t, room - 1);
              if r.Fail? then Backtrack(p, S, text, s + 3, t, room) else r
  {
    hide Sound;
    assert Backtrack(p, S, text, s, t, room) == Backtrack(p, S, text, f, t, room);
  }

  /** If the exit of a simple loop fails here, it failed as well where the iteration began. */
  lemma ExitFails(p: Program, S: set<int>, text: seq<byte>, exit: int, cl: CharClass, t0: nat, t: nat, room: nat)
    requires Sound(p, S) && exit in S && t0 < |text| && t <= |text|
    requires Forgettable(p, exit, cl) && Accepts(cl, text[t0])
    requires Backtrack(p, S, text, exit, t, room).Fail?
    ensures !Backtrack(p, S, text, exit, t0, room).Found?
  {
    hide Sound, Forgettable, Accepts, Backtrack;
    if Backtrack(p, S, text, exit, t0, room).Found? {
      var n := BacktrackSound(p, S, text, exit, t0, room);
      assert Alive(p, text, exit, t0);
      StillAlive(p, text, exit, cl, t0, t);
      var e: nat, m: nat :| Acc(p, text, exit, t, e, m);
      BacktrackComplete(p, S, text, exit, t, room, e, m);
    }
  }

  /** There is no loop that the matcher may update. */
  ghost predicate NeverUpdates(p: Program, S: set<int>) {
    forall s, cl :: !Updatable(p, S, s, cl)
  }

  lemma NoUpdateHere(p: Program, S: set<int>, s: int, cl: CharClass)
    requires NeverUpdates(p, S)
    ensures !Updatable(p, S, s, cl)
  {
  }

  lemma StepValue(p: Program, S: set<int>, q: Program, text: seq<byte>, c: Config, born: seq<nat>)
    requires Sound(p, S) && Rewritten(p, S, q) && ConfigOk(p, S, text, c, born)
    requires |q| == |p| && 0 <= c.pc < |q|
    requires c.pc in S && c.t <= |text| && |c.stack| <= MAX_FAILURES && InS(S, text, c.stack)
    requires NeverUpdates(p, S) || (Harmless(p, S) && !Value(p, S, text, c).Overflow?)
    ensures Step(q, text, c).Stop? ==> Step(q, text, c).o == Value(p, S, text, c)
    ensures Step(q, text, c).Go? ==>
      var d := Step(q, text, c).c;
      && d.pc in S && d.t <= |text| && |d.stack| <= MAX_FAILURES && InS(S, text, d.stack)
      && Value(p, S, text, d) == Value(p, S, text, c)
  {
    hide Sound, Rewritten, SimpleLoop, ConfigOk, Harmless, Updatable, Forgettable, StackValue, InS, NeverUpdates;
    RankFalls(p, S, c.pc);
    RewrittenAt(p, S, q, c.pc);
    var i := q[c.pc];
    if i.End? {
    } else if !i.Passes(text, c.t) {
      ResumeValue(p, S, text, c.stack);
    } else if i.Fork? || i.Dummy? {
      if |c.stack| < MAX_FAILURES {
        PushValue(p, S, text, c, if i.Fork? then AtText(i.alt, c.t) else NoText(i.alt));
      }
    } else if i.UpdateJump? {
      var cl :| Updatable(p, S, c.pc, cl);
      if NeverUpdates(p, S) {
        NoUpdateHere(p, S, c.pc, cl);
        assert false;
      }
      UpdatableParts(p, S, c.pc, cl);
      AtLoopEnd(p, S, text, c, born, c.pc, cl);
      UpdateOk(p, S, text, c, born, c.pc, cl);
      ConfigInS(p, S, text, Config(i.next, c.t, Rest(c.stack) + [AtText(c.pc + 3, c.t)]), Rest(born) + [c.t]);
      assert c.stack == Rest(c.stack) + [Top(c.stack)];
      RestInS(S, text, c.stack);
      UpdateValue(p, S, text, c.pc, p[c.pc].next, c.t, Rest(c.stack), Top(c.stack), born[|born| - 1], cl);
    } else {
      MoveValue(p, S, text, c);
    }
  }

  lemma RestInS(S: set<int>, text: seq<byte>, stack: seq<FailurePoint>)
    requires InS(S, text, stack) && stack != []
    ensures InS(S, text, Rest(stack))
  {
  }

  // ----- room: updating a failure point never takes more of it than pushing another one -----

  /** There is room for every way from a failure point, in its place on the stack. */
  ghost predicate PointRoom(p: Program, S: set<int>, text: seq<byte>, f: FailurePoint, k: nat)
    requires Sound(p, S)
  {
    k < MAX_FAILURES && (f.AtText? ==>
      f.code in S && f.text <= |text| && RoomFor(p, S, text, f.code, f.text, MAX_FAILURES - k))
  }

  ghost predicate StackRoom(p: Program, S: set<int>, text: seq<byte>, stack: seq<FailurePoint>)
    requires Sound(p, S)
  {
    forall k :: 0 <= k < |stack| ==> PointRoom(p, S, text, stack[k], k)
  }

  ghost predicate ConfigRoom(p: Program, S: set<int>, text: seq<byte>, c: Config)
    requires Sound(p, S)
  {
    && c.pc in S && c.t <= |text| && |c.stack| <= MAX_FAILURES
    && RoomFor(p, S, text, c.pc, c.t, MAX_FAILURES - |c.stack|) && StackRoom(p, S, text, c.stack)
  }

  lemma {:induction false} ResumeRoom(p: Program, S: set<int>, text: seq<byte>, stack: seq<FailurePoint>)
    requires Sound(p, S) && StackRoom(p, S, text, stack)
    ensures Resume(stack).Stop? ==> !Resume(stack).o.Overflow?
    ensures Resume(stack).Go? ==> ConfigRoom(p, S, text, Resume(stack).c)
    decreases |stack|
  {
    hide Sound, RoomFor;
    if stack != [] {
      assert PointRoom(p, S, text, stack[|stack| - 1], |stack| - 1);
      if Top(stack).NoText? { ResumeRoom(p, S, text, Rest(stack)); }
    }
  }

  /** One step of RoomFor. */
  lemma RoomStep(p: Program, S: set<int>, text: seq<byte>, pc: int, t: nat, room: nat)
    requires Sound(p, S) && pc in S && t <= |text| && RoomFor(p, S, text, pc, t, room)
    ensures 0 <= pc < |p| && (p[pc].Passes(text, t) ==> p[pc].next in S)
    ensures (p[pc].Fork? || p[pc].Dummy?) ==>
      room > 0 && RoomFor(p, S, text, p[pc].next, t, room - 1)
    ensures p[pc].Fork? ==> p[pc].alt in S && RoomFor(p, S, text, p[pc].alt, t, room)
    ensures p[pc].Passes(text, t) && !p[pc].Fork? && !p[pc].Dummy? ==>
      t + p[pc].Width() <= |text| && RoomFor(p, S, text, p[pc].next, t + p[pc].Width(), room)
  {
    hide Sound;
    RankFalls(p, S, pc);
  }

  lemma PushRoom(p: Program, S: set<int>, text: seq<byte>, stack: seq<FailurePoint>, f: FailurePoint)
    requires Sound(p, S) && StackRoom(p, S, text, stack) && PointRoom(p, S, text, f, |stack|)
    ensures StackRoom(p, S, text, stack + [f])
  {
    hide Sound, PointRoom;
  }

  /** No step runs out of room, whatever has been rewritten, and every step leaves room. */
  lemma StepRoom(p: Program, S: set<int>, q: Program, text: seq<byte>, c: Config, born: seq<nat>)
    requires Sound(p, S) && Rewritten(p, S, q) && ConfigOk(p, S, text, c, born)
    requires |q| == |p| && 0 <= c.pc < |q| && c.t <= |text| && ConfigRoom(p, S, text, c)
    ensures Step(q, text, c).Stop? ==> !Step(q, text, c).o.Overflow?
    ensures Step(q, text, c).Go? ==> ConfigRoom(p, S, text, Step(q, text, c).c)
  {
    hide Sound, Rewritten, SimpleLoop, ConfigOk, Harmless, Updatable, Forgettable, StackRoom, RoomFor;
    RoomStep(p, S, text, c.pc, c.t, MAX_FAILURES - |c.stack|);
    RewrittenAt(p, S, q, c.pc);
    SoundAt(p, S, c.pc);
    var i := q[c.pc];
    if i.End? {
    } else if !i.Passes(text, c.t) {
      ResumeRoom(p, S, text, c.stack);
    } else if i.Fork? || i.Dummy? {
      PushRoom(p, S, text, c.stack, if i.Fork? then AtText(i.alt, c.t) else NoText(i.alt));
    } else if i.UpdateJump? {
      var cl :| Updatable(p, S, c.pc, cl);
      UpdatableParts(p, S, c.pc, cl);
      AtLoopEnd(p, S, text, c, born, c.pc, cl);
      UpdateRoom(p, S, text, c);
    }
  }

  lemma UpdateRoom(p: Program, S: set<int>, text: seq<byte>, c: Config)
    requires Sound(p, S) && ConfigRoom(p, S, text, c) && c.stack != [] && 0 <= c.pc < |p| && LocalOk(p, S, c.pc)
    requires p[c.pc].StarJump? && Top(c.stack).code == c.pc + 3
    ensures ConfigRoom(p, S, text, Config(p[c.pc].next + 3, c.t, Rest(c.stack) + [AtText(Top(c.stack).code, c.t)]))
  {
    hide Sound, RoomFor;
    var room, f, n := MAX_FAILURES - |c.stack|, p[c.pc].next, |c.stack| - 1;
    RoomStep(p, S, text, c.pc, c.t, room);
    RoomStep(p, S, text, f, c.t, room);
    RoomForMore(p, S, text, f + 3, c.t, room - 1, room);
    RoomForMore(p, S, text, c.pc + 3, c.t, room, room + 1);
    assert PointRoom(p, S, text, AtText(c.pc + 3, c.t), n);
    PushRoom(p, S, text, Rest(c.stack), AtText(c.pc + 3, c.t));
  }

  // ----- termination: a bound on the steps that are still to come -----

  /** Bounds the steps of a thread that may push `room` failure points, has `rem` characters left
      and stands at an instruction of the given rank, together with all that it pushes. */
  ghost function Cost(top: nat, room: nat, rem: nat, rank: nat): nat
    decreases room, rem, rank
  {
    1 + (if rank > 0 then Cost(top, room, rem, rank - 1) else 0)
      + (if rem > 0 then Cost(top, room, rem - 1, top) else 0)
      + (if room > 0 then Cost(top, room - 1, rem, top) else 0)
  }

  lemma {:induction false} CostRank(top: nat, room: nat, rem: nat, r: nat, s: nat)
    requires r < s
    ensures Cost(top, room, rem, r) < Cost(top, room, rem, s)
    decreases s
  {
    if r < s - 1 { CostRank(top, room, rem, r, s - 1); }
  }

  lemma CostRankTop(top: nat, room: nat, rem: nat, r: nat)
    requires r <= top
    ensures Cost(top, room, rem, r) <= Cost(top, room, rem, top)
  {
    if r < top { CostRank(top, room, rem, r, top); }
  }

  lemma {:induction false} CostRem(top: nat, room: nat, m: nat, rem: nat, r: nat, s: nat)
    requires m < rem && r <= top
    ensures Cost(top, room, m, r) < Cost(top, room, rem, s)
    decreases rem
  {
    CostRankTop(top, room, m, r);
    if m < rem - 1 { CostRem(top, room, m, rem - 1, r, top); }
  }

  lemma CostPush(top: nat, room: nat, rem: nat, rank: nat, next: nat, alt: nat)
    requires room > 0 && alt < rank && next <= top
    ensures Cost(top, room - 1, rem, next) + Cost(top, room, rem, alt) < Cost(top, room, rem, rank)
  {
    CostRankTop(top, room - 1, rem, next);
    if alt < rank - 1 { CostRank(top, room, rem, alt, rank - 1); }
  }

  /** Moving a failure point forward in the text pays for running the loop body once more. */
  lemma CostUpdate(top: nat, room: nat, rem0: nat, rem: nat, exit: nat, body: nat)
    requires room > 0 && rem < rem0 && exit < top && body <= top
    ensures Cost(top, room - 1, rem, body) + Cost(top, room, rem, exit) < Cost(top, room, rem0, exit)
  {
    CostPush(top, room, rem, top, body, exit);
    CostRem(top, room, rem, rem0, top, exit);
  }

  ghost function RankAt(p: Program, pc: int): nat {
    if 0 <= pc < |p| then Rank(p, pc) else 0
  }

  ghost function TopRank(p: Program): nat {
    2 * |p| + 2
  }

  lemma RankBelow(p: Program, S: set<int>, pc: int)
    requires Sound(p, S) && pc in S
    ensures RankAt(p, pc) < TopRank(p)
  {
    RankFalls(p, S, pc);
  }

  ghost function StackCost(p: Program, n: nat, stack: seq<FailurePoint>, born: seq<nat>): nat
    requires |born| == |stack| <= MAX_FAILURES
    decreases |stack|
  {
    if stack == [] then 0
    else
      var t0 := born[|born| - 1];
      StackCost(p, n, Rest(stack), Rest(born))
      + Cost(TopRank(p), MAX_FAILURES - |Rest(stack)|, if t0 <= n then n - t0 else 0, RankAt(p, Top(stack).code))
  }

  ghost function ConfigCost(p: Program, text: seq<byte>, c: Config, born: seq<nat>): nat
    requires c.t <= |text| && |born| == |c.stack| <= MAX_FAILURES
  {
    Cost(TopRank(p), MAX_FAILURES - |c.stack|, |text| - c.t, RankAt(p, c.pc)) + StackCost(p, |text|, c.stack, born)
  }

  lemma {:induction false} ResumeCost(p: Program, S: set<int>, text: seq<byte>, stack: seq<FailurePoint>,
          born: seq<nat>)
    requires |stack| <= MAX_FAILURES && PointsOk(p, S, text, stack, born) && Resume(stack).Go?
    ensures var d := Resume(stack).c;
            d.t <= |text| && |d.stack| < |stack|
              && ConfigCost(p, text, d, born[..|d.stack|]) <= StackCost(p, |text|, stack, born)
    decreases |stack|
  {
    hide Outside, Cost, RankAt;
    assert PointOk(p, S, text, stack[|stack| - 1], born[|stack| - 1]);
    if Top(stack).NoText? {
      ResumeCost(p, S, text, Rest(stack), Rest(born));
      var d := Resume(stack).c;
      assert Rest(born)[..|d.stack|] == born[..|d.stack|];
    }
  }

  lemma MoveCost(p: Program, S: set<int>, text: seq<byte>, c: Config, born: seq<nat>)
    requires Sound(p, S) && c.pc in S && c.t <= |text| && |born| == |c.stack| <= MAX_FAILURES
    requires 0 <= c.pc < |p| && p[c.pc].Passes(text, c.t) && !p[c.pc].Fork?
    ensures p[c.pc].next in S
    ensures ConfigCost(p, text, Config(p[c.pc].next, c.t + p[c.pc].Width(), c.stack), born) < ConfigCost(p, text, c,
      born)
  {
    hide Sound, Cost, StackCost, Rank;
    RankFalls(p, S, c.pc);
    RankBelow(p, S, p[c.pc].next);
    var top, room, x := TopRank(p), MAX_FAILURES - |c.stack|, p[c.pc].next;
    if p[c.pc].Eat? {
      CostRem(top, room, |text| - c.t - 1, |text| - c.t, RankAt(p, x), RankAt(p, c.pc));
    } else {
      CostRank(top, room, |text| - c.t, RankAt(p, x), RankAt(p, c.pc));
    }
  }

  lemma PushCost(p: Program, S: set<int>, text: seq<byte>, c: Config, born: seq<nat>, f: FailurePoint)
    requires Sound(p, S) && c.pc in S && c.t <= |text| && |born| == |c.stack| < MAX_FAILURES
    requires 0 <= c.pc < |p| && (p[c.pc].Fork? || p[c.pc].Dummy?) && f.code == p[c.pc].alt
    ensures ConfigCost(p, text, Config(p[c.pc].next, c.t, c.stack + [f]), born + [c.t]) < ConfigCost(p, text, c, born)
  {
    hide *;
    RanksFall(p, S, c.pc);
    RankBelow(p, S, p[c.pc].next);
    assert Rest(c.stack + [f]) == c.stack && Rest(born + [c.t]) == born by { RestOf(c.stack, f); RestOf(born, c.t); }
    CostPush(TopRank(p), MAX_FAILURES - |c.stack|, |text| - c.t, RankAt(p, c.pc), RankAt(p, p[c.pc].next),
      RankAt(p, f.code));
    StackCostTop(p, |text|, c.stack, born, f, c.t);
    ConfigCostIs(p, text, c, born);
    ConfigCostIs(p, text, Config(p[c.pc].next, c.t, c.stack + [f]), born + [c.t]);
  }

  lemma RestOf<T>(s: seq<T>, x: T)
    ensures Rest(s + [x]) == s
  {
  }

  lemma RanksFall(p: Program, S: set<int>, pc: int)
    requires Sound(p, S) && pc in S && 0 <= pc < |p| && (p[pc].Fork? || p[pc].Dummy?)
    ensures p[pc].next in S && RankAt(p, p[pc].alt) < RankAt(p, pc)
  {
    hide Sound;
    RankFalls(p, S, pc);
    SoundAt(p, S, pc);
    SoundAt(p, S, p[pc].next);
  }

  /** Every step lowers the bound, so every run ends. */
  lemma StepCost(p: Program, S: set<int>, q: Program, text: seq<byte>, c: Config, born: seq<nat>)
    requires Sound(p, S) && Rewritten(p, S, q) && ConfigOk(p, S, text, c, born)
    requires |q| == |p| && 0 <= c.pc < |q| && Step(q, text, c).Go?
    ensures var d, born' := Step(q, text, c).c, Born(q, text, c, born);
            d.t <= |text| && |born'| == |d.stack| <= MAX_FAILURES
              && ConfigCost(p, text, d, born') < ConfigCost(p, text, c, born)
  {
    hide Sound, Rewritten, SimpleLoop, InLoop, PointsOk, Updatable, Rank, RankAt, StackCost, Cost;
    StepOk(p, S, q, text, c, born);
    SoundAt(p, S, c.pc);
    RewrittenAt(p, S, q, c.pc);
    var i := q[c.pc];
    if !i.Passes(text, c.t) {
      ResumeCost(p, S, text, c.stack, born);
      CostPositive(TopRank(p), MAX_FAILURES - |c.stack|, |text| - c.t, RankAt(p, c.pc));
    } else if i.Fork? || i.Dummy? {
      PushCost(p, S, text, c, born, if i.Fork? then AtText(i.alt, c.t) else NoText(i.alt));
    } else if i.UpdateJump? {
      var cl :| Updatable(p, S, c.pc, cl);
      UpdatableParts(p, S, c.pc, cl);
      AtLoopEnd(p, S, text, c, born, c.pc, cl);
      LastOf(c.stack);
      LastOf(born);
      LoopCost(p, S, text, c.pc, c.t, Rest(c.stack), Top(c.stack), Rest(born), born[|born| - 1]);
    } else {
      MoveCost(p, S, text, c, born);
    }
  }

  lemma CostPositive(top: nat, room: nat, rem: nat, rank: nat)
    ensures Cost(top, room, rem, rank) > 0
  {
  }

  lemma StackCostTop(p: Program, n: nat, rest: seq<FailurePoint>, born: seq<nat>, f: FailurePoint, t0: nat)
    requires |born| == |rest| < MAX_FAILURES && t0 <= n
    ensures StackCost(p, n, rest + [f], born + [t0]) ==
            StackCost(p, n, rest, born) + Cost(TopRank(p), MAX_FAILURES - |rest|, n - t0, RankAt(p, f.code))
  {
    hide Cost, RankAt;
    assert Rest(rest + [f]) == rest && Rest(born + [t0]) == born;
  }

  lemma LastOf<T>(s: seq<T>)
    requires s != []
    ensures |Rest(s)| == |s| - 1 && s == Rest(s) + [s[|s| - 1]]
  {
  }

  lemma ConfigCostIs(p: Program, text: seq<byte>, c: Config, born: seq<nat>)
    requires c.t <= |text| && |born| == |c.stack| <= MAX_FAILURES
    ensures ConfigCost(p, text, c, born) ==
            Cost(TopRank(p), MAX_FAILURES - |c.stack|, |text| - c.t, RankAt(p, c.pc))
              + StackCost(p, |text|, c.stack, born)
  {
  }

  lemma LoopCost(p: Program, S: set<int>, text: seq<byte>, pc: int, t: nat, rest: seq<FailurePoint>,
          top: FailurePoint, born: seq<nat>, t0: nat)
    requires Sound(p, S) && pc in S && 0 <= pc < |p| && p[pc].StarJump? && t0 < t <= |text|
    requires |born| == |rest| < MAX_FAILURES && top.code == pc + 3
    ensures ConfigCost(p, text, Config(p[pc].next + 3, t, rest + [AtText(pc + 3, t)]), born + [t])
            < ConfigCost(p, text, Config(pc, t, rest + [top]), born + [t0])
  {
    hide *;
    SoundAt(p, S, pc);
    var exit, body, room := pc + 3, p[pc].next + 3, MAX_FAILURES - |rest|;
    StackCostTop(p, |text|, rest, born, AtText(exit, t), t);
    StackCostTop(p, |text|, rest, born, top, t0);
    ConfigCostIs(p, text, Config(pc, t, rest + [top]), born + [t0]);
    ConfigCostIs(p, text, Config(body, t, rest + [AtText(exit, t)]), born + [t]);
    RankBelow(p, S, exit);
    RankBelow(p, S, body);
    CostUpdate(TopRank(p), room, |text| - t0, |text| - t, RankAt(p, exit), RankAt(p, body));
    CostPositive(TopRank(p), room - 1, |text| - t, RankAt(p, pc));
  }

  // ----- every run -----

  /** The invariant of a run of the matcher on a pattern compiled to p, started at pos. */
  ghost predicate Good(p: Program, S: set<int>, text: seq<byte>, pos: nat, c: Config, born: seq<nat>)
    requires Sound(p, S) && 0 in S && pos <= |text|
  {
    && ConfigOk(p, S, text, c, born)
    && AllCover(p, text, pos, c)
    && c.pc in S && c.t <= |text| && |c.stack| <= MAX_FAILURES && InS(S, text, c.stack)
    && (Harmless(p, S) ==>
          && (Alive(p, text, 0, pos) ==> SomeAlive(p, text, c))
          && (var plain := Backtrack(p, S, text, 0, pos, MAX_FAILURES);
              plain.Overflow? || Value(p, S, text, c) == plain))
    && (NeverUpdates(p, S) ==> Value(p, S, text, c) == Backtrack(p, S, text, 0, pos, MAX_FAILURES))
    && (RoomFor(p, S, text, 0, pos, MAX_FAILURES) ==> ConfigRoom(p, S, text, c))
  }

  lemma GoodStart(p: Program, S: set<int>, text: seq<byte>, pos: nat)
    requires Sound(p, S) && 0 in S && pos <= |text|
    ensures Good(p, S, text, pos, Config(0, pos, []), [])
  {
    forall s, cl | SimpleLoop(p, S, s, cl)
      ensures InLoop(p, text, s, Config(0, pos, []), [])
    {
      SoundAt(p, S, s);
    }
  }

  /** Rewriting may happen between any two steps: the invariant does not mention the rewritten program. */
  lemma GoodStep(p: Program, S: set<int>, q: Program, text: seq<byte>, pos: nat, c: Config, born: seq<nat>)
    requires Sound(p, S) && 0 in S && pos <= |text| && Rewritten(p, S, q) && Good(p, S, text, pos, c, born)
    requires |q| == |p| && 0 <= c.pc < |q| && Step(q, text, c).Go?
    ensures Good(p, S, text, pos, Step(q, text, c).c, Born(q, text, c, born))
  {
    hide Sound, Rewritten, ConfigOk, AllCover, Harmless, Alive, SomeAlive, Backtrack, Value, InS, Step, Born, RoomFor,
      ConfigRoom,
      NeverUpdates;
    BornFits(p, S, text, c, born);
    StepOk(p, S, q, text, c, born);
    StepCovers(p, S, q, text, pos, c, born);
    ConfigInS(p, S, text, Step(q, text, c).c, Born(q, text, c, born));
    if Harmless(p, S) {
      if Alive(p, text, 0, pos) { StepAlive(p, S, q, text, c, born); }
      if !Backtrack(p, S, text, 0, pos, MAX_FAILURES).Overflow? { StepValue(p, S, q, text, c, born); }
    }
    if RoomFor(p, S, text, 0, pos, MAX_FAILURES) { StepRoom(p, S, q, text, c, born); }
    if NeverUpdates(p, S) { StepValue(p, S, q, text, c, born); }
  }

  lemma BornFits(p: Program, S: set<int>, text: seq<byte>, c: Config, born: seq<nat>)
    requires ConfigOk(p, S, text, c, born)
    ensures |born| == |c.stack|
  {
  }

  /** What an answer of the matcher means. */
  ghost predicate RightAnswer(p: Program, re: Re, text: seq<byte>, pos: nat, o: Outcome)
    requires Compiled(p, re) && NoBackref(re) && pos <= |text|
  {
    && (o.Found? ==> pos <= o.end <= |text| && Matches(re, text, pos, o.end))
    && (Harmless(p, AllStarts(re)) ==>
          && (o.Fail? ==> forall e: nat :: e <= |text| ==> !Matches(re, text, pos, e))
          && (PlainMatch(p, re, text, pos).Overflow? || o == PlainMatch(p, re, text, pos)))
    && (NeverUpdates(p, AllStarts(re)) ==> o == PlainMatch(p, re, text, pos))
    && (MatchRoom(p, re, text, pos) ==> !o.Overflow?)
  }

  lemma GoodStop(p: Program, re: Re, q: Program, text: seq<byte>, pos: nat, c: Config, born: seq<nat>)
    requires Compiled(p, re) && NoBackref(re) && pos <= |text| && Sound(p, AllStarts(re)) && 0 in AllStarts(re)
    requires Rewritten(p, AllStarts(re), q) && Good(p, AllStarts(re), text, pos, c, born)
    requires |q| == |p| && 0 <= c.pc < |q| && Step(q, text, c).Stop?
    ensures RightAnswer(p, re, text, pos, Step(q, text, c).o)
  {
    hide RoomFor, ConfigRoom, Sound, Rewritten, ConfigOk, AllCover, Alive, SomeAlive, Backtrack, Value, InS, Step,
      Matches, Fits, Compiled,
      AllStarts, Harmless, NoBackref, NeverUpdates;
    var S, o := AllStarts(re), Step(q, text, c).o;
    if o.Found? { FoundMatches(p, re, q, text, pos, c); }
    if Harmless(p, S) {
      if o.Fail? {
        if Alive(p, text, 0, pos) { StepAlive(p, S, q, text, c, born); }
        DeadMatchesNothing(p, re, text, pos);
      }
      if !PlainMatch(p, re, text, pos).Overflow? { StepValue(p, S, q, text, c, born); }
    }
    if MatchRoom(p, re, text, pos) { StepRoom(p, S, q, text, c, born); }
    if NeverUpdates(p, S) { StepValue(p, S, q, text, c, born); }
  }

  lemma FoundMatches(p: Program, re: Re, q: Program, text: seq<byte>, pos: nat, c: Config)
    requires Compiled(p, re) && NoBackref(re) && pos <= |text| && Sound(p, AllStarts(re))
    requires Rewritten(p, AllStarts(re), q) && c.pc in AllStarts(re) && AllCover(p, text, pos, c)
    requires |q| == |p| && 0 <= c.pc < |q| && c.t <= |text| && Step(q, text, c).Stop? && Step(q, text, c).o.Found?
    ensures var e := Step(q, text, c).o.end; pos <= e <= |text| && Matches(re, text, pos, e)
  {
    hide Sound, Rewritten, Matches, Fits, AllStarts, NoBackref, Compiled;
    RewrittenAt(p, AllStarts(re), q, c.pc);
    ResumeNotFound(c.stack);
    assert Acc(p, text, c.pc, c.t, c.t, 0);
    assert CanEnd(p, text, c.pc, c.t, c.t);
    var n: nat :| Acc(p, text, 0, pos, c.t, n);
    AccForward(p, text, 0, pos, c.t, n);
    assert exists k: nat :: Acc(p, text, 0, pos, c.t, k);
    CodeMeansPattern(p, re, text, pos, c.t);
  }

  lemma {:induction false} ResumeNotFound(stack: seq<FailurePoint>)
    ensures Resume(stack).Stop? ==> Resume(stack).o.Fail?
    decreases |stack|
  {
    if stack != [] && Top(stack).NoText? { ResumeNotFound(Rest(stack)); }
  }

  lemma DeadMatchesNothing(p: Program, re: Re, text: seq<byte>, pos: nat)
    requires Compiled(p, re) && NoBackref(re) && pos <= |text| && !Alive(p, text, 0, pos)
    ensures forall e: nat :: e <= |text| ==> !Matches(re, text, pos, e)
  {
    hide Matches, Compiled, NoBackref;
    forall e: nat | e <= |text| ensures !Matches(re, text, pos, e) { CodeMeansPattern(p, re, text, pos, e); }
  }

  /** A run: at each moment some rewriting of p, and one step of it from each configuration to the next. */
  ghost predicate IsRun(p: Program, S: set<int>, text: seq<byte>, pos: nat, qs: seq<Program>, cs: seq<Config>)
    requires pos <= |text|
  {
    && |qs| == |cs| > 0 && cs[0] == Config(0, pos, [])
    && (forall k :: 0 <= k < |qs| ==> Rewritten(p, S, qs[k]))
    && (forall k :: 0 <= k < |cs| ==> cs[k].t <= |text| && 0 <= cs[k].pc < |p|)
    && (forall k :: 0 <= k < |cs| - 1 ==> |qs[k]| == |p| && Step(qs[k], text, cs[k]) == Go(cs[k + 1]))
  }

  lemma {:induction false} RunGood(p: Program, S: set<int>, text: seq<byte>, pos: nat, qs: seq<Program>,
          cs: seq<Config>, k: nat)
      returns (born: seq<nat>)
    requires Sound(p, S) && 0 in S && pos <= |text| && IsRun(p, S, text, pos, qs, cs) && k < |cs|
    ensures Good(p, S, text, pos, cs[k], born) && |born| == |cs[k].stack| <= MAX_FAILURES
    ensures k + ConfigCost(p, text, cs[k], born) <= ConfigCost(p, text, cs[0], [])
    decreases k
  {
    hide Sound, Rewritten, Step, Born, ConfigCost, Good;
    if k == 0 {
      GoodStart(p, S, text, pos);
      born := [];
    } else {
      var b := RunGood(p, S, text, pos, qs, cs, k - 1);
      var j := k - 1;
      assert Step(qs[j], text, cs[j]) == Go(cs[j + 1]);
      GoodStep(p, S, qs[k - 1], text, pos, cs[k - 1], b);
      born := Born(qs[k - 1], text, cs[k - 1], b);
      assert ConfigOk(p, S, text, cs[k - 1], b) by { GoodConfig(p, S, text, pos, cs[k - 1], b); }
      StepCost(p, S, qs[k - 1], text, cs[k - 1], b);
    }
  }

  lemma GoodConfig(p: Program, S: set<int>, text: seq<byte>, pos: nat, c: Config, born: seq<nat>)
    requires Sound(p, S) && 0 in S && pos <= |text| && Good(p, S, text, pos, c, born)
    ensures ConfigOk(p, S, text, c, born)
  {
  }

  /** However star jumps are rewritten on the way, a run takes boundedly many steps, and if it
      stops, its answer is right. */
  lemma EveryRun(p: Program, re: Re, text: seq<byte>, pos: nat, qs: seq<Program>, cs: seq<Config>)
    requires Compiled(p, re) && NoBackref(re) && pos <= |text| && IsRun(p, AllStarts(re), text, pos, qs, cs)
    ensures |cs| <= 1 + ConfigCost(p, text, Config(0, pos, []), [])
    ensures var k := |cs| - 1;
            |qs[k]| == |p| && (Step(qs[k], text, cs[k]).Stop? ==>
              RightAnswer(p, re, text, pos, Step(qs[k], text, cs[k]).o))
  {
    hide Sound, Rewritten, Step, ConfigCost, Good, Compiled, NoBackref, RightAnswer;
    CompiledSound(p, re);
    var k := |cs| - 1;
    var born := RunGood(p, AllStarts(re), text, pos, qs, cs, k);
    assert |qs[k]| == |p| by { SameLength(p, AllStarts(re), qs[k]); }
    if Step(qs[k], text, cs[k]).Stop? { GoodStop(p, re, qs[k], text, pos, cs[k], born); }
  }

  lemma SameLength(p: Program, S: set<int>, q: Program)
    requires Rewritten(p, S, q)
    ensures |q| == |p|
  {
  }
}
