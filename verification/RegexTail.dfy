/** A loop over one character class with a tail that has no loops behind it: what the rewriting of its
    star jump does, and when exactly it loses a match. */
module RegexTail {
  import opened RegexSyntax
  import opened RegexProgram
  import opened RegexStructure
  import opened RegexBacktrack
  import opened RegexFirst
  import opened RegexMachine
  import opened RegexRuns
  import opened RegexCode
  import opened RegexMatcher
  import opened RegexBuffer
  import opened RegexRoom

  // ----- the loop -----

  predicate Tail(r: Re) {
    LoopFree(r) && NoBackref(r) && Encodable(r)
  }

  function Loop(cl: CharClass, r: Re): Re {
    Seq(Star(Atom(cl)), r)
  }

  /** The offsets of the star jump and of the tail. */
  function StarAt(cl: CharClass): nat { 3 + AtomLen(cl) }
  function TailAt(cl: CharClass): nat { 6 + AtomLen(cl) }

  /** How the code of the loop looks. */
  ghost predicate LoopCode(p: Program, cl: CharClass, r: Re) {
    && |p| == TailAt(cl) + Len(r) + 1 && Fits(p, TailAt(cl), r) && p[TailAt(cl) + Len(r)] == End
    && p[0] == Fork(3, TailAt(cl)) && p[3] == Eat(cl, StarAt(cl)) && p[StarAt(cl)] == StarJump(0)
  }

  lemma LoopLaid(cl: CharClass, r: Re)
    requires NoBackref(r) && Encodable(r)
    ensures var re := Loop(cl, r);
      && NoBackref(re) && Encodable(re) && LoopCode(Pristine(re), cl, r)
      && AllStarts(re) == {0, 3, StarAt(cl)} + Starts(r, TailAt(cl)) + {TailAt(cl) + Len(r)}
  {
    hide *;
    LoopEncodable(cl, r);
    LoopStarts(cl, r);
    PristineSound(Loop(cl, r));
    LaidCode(Pristine(Loop(cl, r)), cl, r);
  }

  lemma LoopEncodable(cl: CharClass, r: Re)
    requires NoBackref(r) && Encodable(r)
    ensures NoBackref(Loop(cl, r)) && Encodable(Loop(cl, r))
  {
    assert Encodable(Atom(cl)) && Len(Atom(cl)) <= 33 && NoBackref(Star(Atom(cl))) && Encodable(Star(Atom(cl)));
  }

  lemma LoopStarts(cl: CharClass, r: Re)
    ensures AllStarts(Loop(cl, r)) == {0, 3, StarAt(cl)} + Starts(r, TailAt(cl)) + {TailAt(cl) + Len(r)}
  {
    hide *;
    AllStartsIs(Loop(cl, r));
    LoopIs(cl, r);
    AtomStarts(cl);
    SeqStarts(0, Star(Atom(cl)), r);
    BodyStarts(0, Star(Atom(cl)));
    StarLength(Atom(cl));
  }

  lemma AllStartsIs(re: Re)
    ensures AllStarts(re) == Starts(re, 0) + {Len(re)}
  {
    hide Starts, Len;
  }

  lemma LoopIs(cl: CharClass, r: Re)
    ensures Loop(cl, r) == Seq(Star(Atom(cl)), r) && StarAt(cl) == 3 + AtomLen(cl) && TailAt(cl) == 6 + AtomLen(cl)
  {
  }

  lemma AtomStarts(cl: CharClass)
    ensures Len(Atom(cl)) == AtomLen(cl) && Starts(Atom(cl), 3) == {3}
  {
  }

  lemma StarLength(b: Re)
    ensures Len(Star(b)) == 6 + Len(b)
  {
  }

  lemma LaidCode(p: Program, cl: CharClass, r: Re)
    requires Compiled(p, Loop(cl, r))
    ensures LoopCode(p, cl, r)
  {
    SeqLayout(p, 0, Star(Atom(cl)), r);
    StarLayout(p, 0, Atom(cl));
    LoopLayout(p, 0, Atom(cl));
  }

  lemma LoopCodeParts(p: Program, cl: CharClass, r: Re)
    requires LoopCode(p, cl, r)
    ensures |p| == TailAt(cl) + Len(r) + 1 && Fits(p, TailAt(cl), r) && p[TailAt(cl) + Len(r)] == End
    ensures 3 < StarAt(cl) && TailAt(cl) == StarAt(cl) + 3
    ensures p[0] == Fork(3, TailAt(cl)) && p[3] == Eat(cl, StarAt(cl)) && p[StarAt(cl)] == StarJump(0)
  {
    hide Fits, Len;
    LenPositive(cl);
  }

  lemma LenPositive(cl: CharClass)
    ensures AtomLen(cl) >= 1
  {
  }

  /** The instructions of the tail lie behind the loop, and there are no star jumps among them. */
  ghost predicate LiesBehind(p: Program, pcs: set<int>, x: int) {
    forall pc :: pc in pcs ==> x <= pc < |p| && 0 <= pc && !p[pc].StarJump?
  }

  lemma TailStarts(cl: CharClass, r: Re)
    requires Tail(r)
    ensures NoBackref(r) && Encodable(r) && LiesBehind(Pristine(Loop(cl, r)), Starts(r, TailAt(cl)), TailAt(cl))
  {
    hide *;
    TailIs(r);
    LoopLaid(cl, r);
    var p, S := Pristine(Loop(cl, r)), AllStarts(Loop(cl, r));
    LoopCodeParts(p, cl, r);
    NodeInside(p, TailAt(cl), r, S);
    NoStars(p, TailAt(cl), r);
    InsideFrom(p, S, Starts(r, TailAt(cl)), TailAt(cl), TailAt(cl) + Len(r));
  }

  lemma TailIs(r: Re)
    ensures Tail(r) <==> LoopFree(r) && NoBackref(r) && Encodable(r)
  {
    hide LoopFree, NoBackref, Encodable;
  }

  lemma InsideFrom(p: Program, S: set<int>, pcs: set<int>, a: int, z: int)
    requires (forall pc :: pc in pcs ==> Inside(p, S, a, z, pc)) && StarsNone(p, pcs)
    ensures LiesBehind(p, pcs, a)
  {
    hide LocalOk;
  }

  /** The matcher updates the loop's failure point: the class is a character, a set or `.`, and nothing
      in it can begin the tail. */
  ghost predicate Updated(cl: CharClass, r: Re) {
    !cl.Syntax? && !cl.NotSyntax? && Disjoint(Pristine(Loop(cl, r)), TailAt(cl), cl)
  }

  lemma LoopIsSimple(cl: CharClass, r: Re, c: CharClass)
    requires Tail(r)
    ensures SimpleLoop(Pristine(Loop(cl, r)), AllStarts(Loop(cl, r)), StarAt(cl), c) <==> c == cl
  {
    hide *;
    TailStarts(cl, r);
    LoopLaid(cl, r);
    LoopCodeParts(Pristine(Loop(cl, r)), cl, r);
    SimpleIs(Pristine(Loop(cl, r)), AllStarts(Loop(cl, r)), Starts(r, TailAt(cl)), StarAt(cl), TailAt(cl) + Len(r),
      cl, c);
  }

  lemma SimpleIs(p: Program, S: set<int>, tail: set<int>, s: nat, end: nat, cl: CharClass, c: CharClass)
    requires 3 < s && s + 3 <= end < |p| && S == {0, 3, s} + tail + {end} && LiesBehind(p, tail, s + 3)
    requires p[3] == Eat(cl, s) && p[s] == StarJump(0)
    ensures SimpleLoop(p, S, s, c) <==> c == cl
  {
    assert EaterAt(p, 3) == 3;
    assert Straight(p, S, 3, s);
  }

  lemma ExactlyUpdated(cl: CharClass, r: Re)
    requires Tail(r)
    ensures StarUpdates(Pristine(Loop(cl, r)), AllStarts(Loop(cl, r)), StarAt(cl)) <==> Updated(cl, r)
  {
    hide *;
    var p, S := Pristine(Loop(cl, r)), AllStarts(Loop(cl, r));
    forall c ensures MayUpdate(p, S, StarAt(cl), c) <==> c == cl && Updated(cl, r) {
      LoopIsSimple(cl, r, c);
      UpdatedIs(cl, r, c);
    }
    StarUpdatesIs(p, S, StarAt(cl), cl, Updated(cl, r));
  }

  lemma UpdatedIs(cl: CharClass, r: Re, c: CharClass)
    requires SimpleLoop(Pristine(Loop(cl, r)), AllStarts(Loop(cl, r)), StarAt(cl), c) <==> c == cl
    ensures MayUpdate(Pristine(Loop(cl, r)), AllStarts(Loop(cl, r)), StarAt(cl), c) <==> c == cl && Updated(cl, r)
  {
    hide SimpleLoop, Disjoint, Pristine, AllStarts;
  }

  lemma StarUpdatesIs(p: Program, S: set<int>, s: int, cl: CharClass, yes: bool)
    requires forall c :: MayUpdate(p, S, s, c) <==> c == cl && yes
    ensures StarUpdates(p, S, s) <==> yes
  {
    hide MayUpdate;
    assert MayUpdate(p, S, s, cl) <==> yes;
  }

  // ----- the run of the matcher -----

  /** Where the characters of class cl that begin at t end. */
  function RunEnd(cl: CharClass, text: seq<byte>, t: nat): (m: nat)
    requires t <= |text|
    ensures t <= m <= |text| && (m < |text| ==> !Accepts(cl, text[m]))
    ensures forall k :: t <= k < m ==> Accepts(cl, text[k])
    decreases |text| - t
  {
    if t < |text| && Accepts(cl, text[t]) then RunEnd(cl, text, t + 1) else t
  }

  /** The settled code of an updated loop. */
  ghost predicate UpdatedCode(q: Program, cl: CharClass, r: Re) {
    && |q| == TailAt(cl) + Len(r) + 1
    && q[0] == Fork(3, TailAt(cl)) && q[3] == Eat(cl, StarAt(cl)) && q[StarAt(cl)] == UpdateJump(3)
  }

  /** Behind the loop, q is p, and there is no star jump. */
  ghost predicate SameTail(p: Program, q: Program, S: set<int>, x: int) {
    |q| == |p| && forall pc :: pc in S && x <= pc ==> 0 <= pc < |p| && q[pc] == p[pc] && !p[pc].StarJump?
  }

  lemma FinalCode(cl: CharClass, r: Re)
    requires Tail(r) && Updated(cl, r)
    ensures UpdatedCode(Final(Loop(cl, r)), cl, r)
    ensures SameTail(Pristine(Loop(cl, r)), Final(Loop(cl, r)), AllStarts(Loop(cl, r)), TailAt(cl))
  {
    hide *;
    TailStarts(cl, r);
    LoopLaid(cl, r);
    ExactlyUpdated(cl, r);
    FinalIs(Loop(cl, r));
    LoopCodeParts(Pristine(Loop(cl, r)), cl, r);
    SettledCode(Pristine(Loop(cl, r)), AllStarts(Loop(cl, r)), Starts(r, TailAt(cl)), cl, r);
  }

  lemma SettledCode(p: Program, S: set<int>, tail: set<int>, cl: CharClass, r: Re)
    requires LoopCode(p, cl, r) && S == {0, 3, StarAt(cl)} + tail + {TailAt(cl) + Len(r)}
    requires LiesBehind(p, tail, TailAt(cl)) && StarUpdates(p, S, StarAt(cl))
    ensures UpdatedCode(Settled(p, S), cl, r) && SameTail(p, Settled(p, S), S, TailAt(cl))
  {
    hide Fits, Len, StarUpdates, AtomLen;
    LenPositive(cl);
    var q := Settled(p, S);
    assert forall pc :: 0 <= pc < |p| ==> q[pc] == SettledAt(p, S, pc);
    assert q[0] == SettledAt(p, S, 0) && q[3] == SettledAt(p, S, 3) && q[StarAt(cl)] == SettledAt(p, S, StarAt(cl));
  }

  lemma {:induction false} LoopRuns(q: Program, cl: CharClass, r: Re, text: seq<byte>, t: nat) returns (n: nat)
    requires UpdatedCode(q, cl, r) && t <= |text|
    ensures Reaches(q, text, Config(3, t, [AtText(TailAt(cl), t)]), Config(TailAt(cl), RunEnd(cl, text, t), []), n)
    decreases |text| - t
  {
    hide *;
    var x, m := TailAt(cl), RunEnd(cl, text, t);
    var c := Config(3, t, [AtText(x, t)]);
    RunEndAt(cl, text, t);
    if t < |text| && Accepts(cl, text[t]) {
      var d, e := Config(StarAt(cl), t + 1, [AtText(x, t)]), Config(3, t + 1, [AtText(x, t + 1)]);
      EatStep(q, cl, r, text, t, [AtText(x, t)]);
      BackStep(q, cl, r, text, t + 1, t);
      OneStep(q, text, c, d);
      OneStep(q, text, d, e);
      n := LoopRuns(q, cl, r, text, t + 1);
      ReachesOn(q, text, d, e, 1, Config(x, m, []), n);
      ReachesOn(q, text, c, d, 1, Config(x, m, []), 1 + n);
      n := 1 + (1 + n);
    } else {
      LeaveStep(q, cl, r, text, t);
      OneStep(q, text, c, Config(x, t, []));
      n := 1;
    }
  }

  lemma RunEndAt(cl: CharClass, text: seq<byte>, t: nat)
    requires t <= |text|
    ensures RunEnd(cl, text, t) == if t < |text| && Accepts(cl, text[t]) then RunEnd(cl, text, t + 1) else t
  {
    hide Accepts;
  }

  lemma CodeSize(q: Program, cl: CharClass, r: Re)
    requires UpdatedCode(q, cl, r)
    ensures 3 < StarAt(cl) < TailAt(cl) < |q|
  {
    LenPositive(cl);
  }

  lemma EatStep(q: Program, cl: CharClass, r: Re, text: seq<byte>, t: nat, stack: seq<FailurePoint>)
    requires UpdatedCode(q, cl, r) && t < |text| && Accepts(cl, text[t])
    ensures 3 < |q| && Step(q, text, Config(3, t, stack)) == Go(Config(StarAt(cl), t + 1, stack))
  {
    hide Accepts, Resume;
  }

  lemma BackStep(q: Program, cl: CharClass, r: Re, text: seq<byte>, t: nat, t0: nat)
    requires UpdatedCode(q, cl, r) && t <= |text|
    ensures StarAt(cl) < |q|
    ensures Step(q, text, Config(StarAt(cl), t, [AtText(TailAt(cl), t0)])) == Go(Config(3, t, [AtText(TailAt(cl), t)]))
  {
    hide Resume;
  }

  lemma LeaveStep(q: Program, cl: CharClass, r: Re, text: seq<byte>, t: nat)
    requires UpdatedCode(q, cl, r) && t <= |text| && !(t < |text| && Accepts(cl, text[t]))
    ensures 3 < |q| && Step(q, text, Config(3, t, [AtText(TailAt(cl), t)])) == Go(Config(TailAt(cl), t, []))
  {
    hide Accepts;
    assert Rest([AtText(TailAt(cl), t)]) == [];
  }

  lemma EnterStep(q: Program, cl: CharClass, r: Re, text: seq<byte>, t: nat)
    requires UpdatedCode(q, cl, r) && t <= |text|
    ensures 0 < |q| && Step(q, text, Config(0, t, [])) == Go(Config(3, t, [AtText(TailAt(cl), t)]))
  {
    hide Resume;
    assert [] + [AtText(TailAt(cl), t)] == [AtText(TailAt(cl), t)];
  }

  // ----- the tail is run as plain backtracking would -----

  /** The machine is in the tail, and so are its failure points. */
  ghost predicate InTail(p: Program, S: set<int>, text: seq<byte>, x: int, c: Config)
  {
    && x <= c.pc && c.pc in S && c.t <= |text| && |c.stack| <= MAX_FAILURES && InS(S, text, c.stack)
    && forall k :: 0 <= k < |c.stack| ==> x <= c.stack[k].code
  }

  lemma TailStep(p: Program, q: Program, S: set<int>, text: seq<byte>, x: int, c: Config)
    requires Sound(p, S) && SameTail(p, q, S, x) && InTail(p, S, text, x, c)
    ensures 0 <= c.pc < |q| == |p|
    ensures Step(q, text, c).Stop? ==> Step(q, text, c).o == Value(p, S, text, c)
    ensures Step(q, text, c).Go? ==>
      InTail(p, S, text, x, Step(q, text, c).c) && Value(p, S, text, Step(q, text, c).c) == Value(p, S, text, c)
  {
    hide Sound, StackValue, InS;
    RankFalls(p, S, c.pc);
    var i := q[c.pc];
    if i.End? {
    } else if !i.Passes(text, c.t) {
      ResumeValue(p, S, text, c.stack);
      ResumeInTail(p, S, text, x, c.stack);
    } else if i.Fork? || i.Dummy? {
      if |c.stack| < MAX_FAILURES {
        PushValue(p, S, text, c, if i.Fork? then AtText(i.alt, c.t) else NoText(i.alt));
      }
    } else {
      MoveValue(p, S, text, c);
    }
  }

  lemma {:induction false} ResumeInTail(p: Program, S: set<int>, text: seq<byte>, x: int, stack: seq<FailurePoint>)
    requires |stack| <= MAX_FAILURES && InS(S, text, stack) && forall k :: 0 <= k < |stack| ==> x <= stack[k].code
    ensures Resume(stack).Go? ==> InTail(p, S, text, x, Resume(stack).c)
    decreases |stack|
  {
    if stack != [] && Top(stack).NoText? { ResumeInTail(p, S, text, x, Rest(stack)); }
  }

  /** Where a run in the tail stops. */
  lemma {:induction false} TailStops(p: Program, q: Program, S: set<int>, text: seq<byte>, x: int, c: Config, d: Config,
          n: nat, o: Outcome)
    requires Sound(p, S) && SameTail(p, q, S, x) && InTail(p, S, text, x, c)
    requires Reaches(q, text, c, d, n) && StopsAt(q, text, d, o)
    ensures InS(S, text, c.stack) && o == Value(p, S, text, c)
    decreases n
  {
    hide Sound, SameTail, Value, Step, InS;
    TailStep(p, q, S, text, x, c);
    InTailIs(p, S, text, x, c);
    if n > 0 { TailStops(p, q, S, text, x, Step(q, text, c).c, d, n - 1, o); }
  }

  lemma InTailIs(p: Program, S: set<int>, text: seq<byte>, x: int, c: Config)
    requires InTail(p, S, text, x, c)
    ensures c.pc in S && c.t <= |text| && |c.stack| <= MAX_FAILURES && InS(S, text, c.stack)
  {
    hide InS;
  }

  /** A run that stops goes on from where it has been. */
  lemma {:induction false} StopsLater(q: Program, text: seq<byte>, c: Config, e: Config, m: nat, d: Config, n: nat,
          o: Outcome)
    requires Reaches(q, text, c, e, m) && Reaches(q, text, c, d, n) && StopsAt(q, text, d, o)
    ensures m <= n && Reaches(q, text, e, d, n - m)
    decreases m
  {
    if m > 0 && n > 0 { StopsLater(q, text, Step(q, text, c).c, e, m - 1, d, n - 1, o); }
  }

  /** The matcher takes as many characters as there are, and then answers what backtracking into the
      tail finds. */
  lemma TailAnswer(cl: CharClass, r: Re, text: seq<byte>, pos: nat, o: Outcome)
    requires Tail(r) && Updated(cl, r) && pos <= |text| && Answer(Loop(cl, r), text, pos, o)
    ensures var p, S := Pristine(Loop(cl, r)), AllStarts(Loop(cl, r));
      Sound(p, S) && TailAt(cl) in S && o == Backtrack(p, S, text, TailAt(cl), RunEnd(cl, text, pos), MAX_FAILURES)
  {
    hide *;
    var re, x, m := Loop(cl, r), TailAt(cl), RunEnd(cl, text, pos);
    var q := Final(re);
    FinalCode(cl, r);
    TailIs(r);
    LoopLaid(cl, r);
    LoopCodeParts(Pristine(re), cl, r);
    PristineSound(re);
    NodeInside(Pristine(re), x, r, AllStarts(re));
    CodeSize(q, cl, r);
    EnterStep(q, cl, r, text, pos);
    var start, c := Config(0, pos, []), Config(3, pos, [AtText(x, pos)]);
    OneStep(q, text, start, c);
    var n := LoopRuns(q, cl, r, text, pos);
    ReachesOn(q, text, start, c, 1, Config(x, m, []), n);
    var d, k := AnswerRun(re, text, pos, o);
    StopsLater(q, text, start, Config(x, m, []), 1 + n, d, k, o);
    EmptyInTail(Pristine(re), AllStarts(re), text, x, m);
    TailStops(Pristine(re), q, AllStarts(re), text, x, Config(x, m, []), d, k - (1 + n), o);
    EmptyValue(Pristine(re), AllStarts(re), text, x, m);
  }

  lemma AnswerRun(re: Re, text: seq<byte>, pos: nat, o: Outcome) returns (d: Config, k: nat)
    requires Answer(re, text, pos, o)
    ensures Reaches(Final(re), text, Config(0, pos, []), d, k) && StopsAt(Final(re), text, d, o)
  {
    hide Final, Reaches, StopsAt;
    d, k :| Reaches(Final(re), text, Config(0, pos, []), d, k) && StopsAt(Final(re), text, d, o);
  }

  lemma EmptyInTail(p: Program, S: set<int>, text: seq<byte>, x: int, t: nat)
    requires x in S && t <= |text|
    ensures InTail(p, S, text, x, Config(x, t, []))
  {
  }

  lemma EmptyValue(p: Program, S: set<int>, text: seq<byte>, x: int, t: nat)
    requires Sound(p, S) && x in S && t <= |text|
    ensures InS(S, text, []) && Value(p, S, text, Config(x, t, [])) == Backtrack(p, S, text, x, t, MAX_FAILURES)
  {
    hide Sound, Backtrack;
  }

  // ----- when a match is lost -----

  /** The pattern matches at pos, and the matcher answers that it does not. */
  ghost predicate LostAt(re: Re, text: seq<byte>, pos: nat) {
    MatchesAt(re, text, pos) && Answer(re, text, pos, Fail)
  }

  lemma {:induction false} ManyAtoms(cl: CharClass, text: seq<byte>, i: nat, j: nat)
    requires i <= |text| && j <= |text|
    ensures Many(Atom(cl), text, i, j) <==> i <= j <= RunEnd(cl, text, i)
    decreases |text| - i
  {
    hide Accepts;
    RunEndAt(cl, text, i);
    if i < |text| && Accepts(cl, text[i]) {
      ManyAtoms(cl, text, i + 1, j);
      assert Matches(Atom(cl), text, i, i + 1);
    }
    forall k: nat | i < k <= j ensures Matches(Atom(cl), text, i, k) <==>
      k == i + 1 && i < |text| && Accepts(cl, text[i]) { }
  }

  lemma LoopMatches(cl: CharClass, r: Re, text: seq<byte>, pos: nat)
    requires pos <= |text|
    ensures MatchesAt(Loop(cl, r), text, pos) <==>
      exists t: nat :: pos <= t <= RunEnd(cl, text, pos) && MatchesAt(r, text, t)
  {
    hide RunEnd, Accepts, Matches;
    if MatchesAt(Loop(cl, r), text, pos) {
      var e: nat :| e <= |text| && Matches(Loop(cl, r), text, pos, e);
      var t := SplitAt(Star(Atom(cl)), r, text, pos, e);
      StarMatches(cl, text, pos, t);
      assert MatchesAt(r, text, t);
    }
    if t: nat :| pos <= t <= RunEnd(cl, text, pos) && MatchesAt(r, text, t) {
      var e: nat :| e <= |text| && Matches(r, text, t, e);
      StarMatches(cl, text, pos, t);
      Forward(r, text, t, e);
      JoinAt(Star(Atom(cl)), r, text, pos, t, e);
    }
  }

  lemma StarMatches(cl: CharClass, text: seq<byte>, pos: nat, t: nat)
    requires pos <= |text| && t <= |text|
    ensures Matches(Star(Atom(cl)), text, pos, t) <==> pos <= t <= RunEnd(cl, text, pos)
  {
    hide RunEnd, Accepts, Many;
    ManyAtoms(cl, text, pos, t);
    assert Matches(Star(Atom(cl)), text, pos, t) <==> Many(Atom(cl), text, pos, t);
  }

  lemma Forward(re: Re, text: seq<byte>, i: nat, j: nat)
    requires i <= |text| && j <= |text| && Matches(re, text, i, j)
    ensures i <= j
  {
    hide Matches, Derives;
    var d := MatchTree(re, text, i, j);
    TreeMatches(d, re, text, i, j);
  }

  lemma SplitAt(l: Re, r: Re, text: seq<byte>, i: nat, j: nat) returns (k: nat)
    requires i <= |text| && j <= |text| && Matches(Seq(l, r), text, i, j)
    ensures i <= k <= j && Matches(l, text, i, k) && Matches(r, text, k, j)
  {
    k :| i <= k <= j && Matches(l, text, i, k) && Matches(r, text, k, j);
  }

  lemma JoinAt(l: Re, r: Re, text: seq<byte>, i: nat, k: nat, j: nat)
    requires i <= k <= j <= |text| && Matches(l, text, i, k) && Matches(r, text, k, j)
    ensures Matches(Seq(l, r), text, i, j)
  {
  }

  lemma SteadyIs(re: Re)
    ensures Steady(re) <==> Harmless(Pristine(re), AllStarts(re))
  {
    hide Harmless, Pristine, AllStarts;
  }

  lemma NeverUpdated(cl: CharClass, r: Re)
    requires Tail(r) && !Updated(cl, r)
    ensures Steady(Loop(cl, r))
  {
    hide *;
    TailStarts(cl, r);
    LoopLaid(cl, r);
    ExactlyUpdated(cl, r);
    LoopCodeParts(Pristine(Loop(cl, r)), cl, r);
    OneStar(Pristine(Loop(cl, r)), AllStarts(Loop(cl, r)), Starts(r, TailAt(cl)), cl, r);
    assert Harmless(Pristine(Loop(cl, r)), AllStarts(Loop(cl, r))) by {
      NoneMay(Pristine(Loop(cl, r)), AllStarts(Loop(cl, r)), StarAt(cl));
    }
    SteadyIs(Loop(cl, r));
  }

  /** The loop's own star jump is the only one. */
  lemma OneStar(p: Program, S: set<int>, tail: set<int>, cl: CharClass, r: Re)
    requires LoopCode(p, cl, r) && S == {0, 3, StarAt(cl)} + tail + {TailAt(cl) + Len(r)}
    requires LiesBehind(p, tail, TailAt(cl))
    ensures forall s, c :: MayUpdate(p, S, s, c) ==> s == StarAt(cl)
  {
    hide Fits, Len, Disjoint, AtomLen;
    LoopCodeParts(p, cl, r);
    forall s, c | MayUpdate(p, S, s, c) ensures s == StarAt(cl) {
      assert s in S && p[s].StarJump?;
    }
  }

  lemma NoneMay(p: Program, S: set<int>, s: int)
    requires (forall s', c :: MayUpdate(p, S, s', c) ==> s' == s) && !StarUpdates(p, S, s)
    ensures Harmless(p, S)
  {
    hide MayUpdate, Tied;
  }

  /** Backtracking into the tail fails exactly when the tail does not match there, and otherwise finds
      a match. */
  lemma TailFails(cl: CharClass, r: Re, text: seq<byte>, t: nat)
    requires Tail(r) && Forks(r) <= MAX_FAILURES && t <= |text|
    ensures var p, S := Pristine(Loop(cl, r)), AllStarts(Loop(cl, r));
      && Sound(p, S) && TailAt(cl) in S
      && var o := Backtrack(p, S, text, TailAt(cl), t, MAX_FAILURES);
      && !o.Overflow? && (o.Fail? <==> !MatchesAt(r, text, t))
      && (o.Found? ==> o.end <= |text| && Matches(r, text, t, o.end))
  {
    hide *;
    var re, x := Loop(cl, r), TailAt(cl);
    var p, S := Pristine(re), AllStarts(re);
    TailIs(r);
    LoopLaid(cl, r);
    LoopCodeParts(p, cl, r);
    PristineSound(re);
    NodeInside(p, x, r, S);
    TailRoom(p, S, x, r, text, t);
    var o := Backtrack(p, S, text, x, t, MAX_FAILURES);
    if o.Found? {
      var n := BacktrackSound(p, S, text, x, t, MAX_FAILURES);
      AccForward(p, text, x, t, o.end, n);
      EndMatches(p, x, r, text, t, o.end, n);
    }
    if MatchesAt(r, text, t) {
      var e, n := MatchAccepts(p, x, r, text, t);
      if o.Fail? { BacktrackComplete(p, S, text, x, t, MAX_FAILURES, e, n); }
    }
  }

  lemma TailRoom(p: Program, S: set<int>, x: nat, r: Re, text: seq<byte>, t: nat)
    requires Sound(p, S) && Fits(p, x, r) && NoBackref(r) && Starts(r, x) <= S && x + Len(r) in S && LoopFree(r)
    requires 0 <= x + Len(r) < |p| && p[x + Len(r)] == End && Forks(r) <= MAX_FAILURES && t <= |text|
    ensures x in S && !Backtrack(p, S, text, x, t, MAX_FAILURES).Overflow?
  {
    hide *;
    var z := x + Len(r);
    FreeConsumes(r);
    FreePerChar(r);
    forall u: nat | u <= |text| ensures EnoughAt(p, S, text, z, u, 0, 0) {
      EnoughStep(p, S, text, z, u, Need(0, 0, |text| - u));
      EnoughIs(p, S, text, z, u, 0, 0);
    }
    AfterIs(p, S, text, z, t, 0, 0, 0, Nullable(r));
    NodeEnough(p, S, x, r, text, t, 0, 0, 0);
    NeedIs(0 + Forks(r), 0, |text| - t);
    EnoughIs(p, S, text, x, t, 0, 0 + Forks(r));
    EnoughMore(p, S, text, x, t, Forks(r), MAX_FAILURES);
    EnoughRoom(p, S, text, x, t);
  }

  lemma EnoughRoom(p: Program, S: set<int>, text: seq<byte>, x: int, t: nat)
    requires Sound(p, S) && Enough(p, S, text, x, t, MAX_FAILURES)
    ensures x in S && t <= |text| && !Backtrack(p, S, text, x, t, MAX_FAILURES).Overflow?
  {
    hide Sound, Backtrack, RoomFor;
    RoomSuffices(p, S, text, x, t, MAX_FAILURES);
  }

  lemma {:induction false} FreePerChar(re: Re)
    requires LoopFree(re)
    ensures PerChar(re) == 0
  {
    match re
    case Seq(l, r) => FreePerChar(l); FreePerChar(r);
    case Alt(l, r) => FreePerChar(l); FreePerChar(r);
    case Opt(b) => FreePerChar(b);
    case Group(_, b) => FreePerChar(b);
    case _ =>
  }

  lemma EndMatches(p: Program, x: nat, r: Re, text: seq<byte>, t: nat, e: nat, n: nat)
    requires Fits(p, x, r) && NoBackref(r) && 0 <= x + Len(r) < |p| && p[x + Len(r)] == End
    requires t <= e <= |text| && Acc(p, text, x, t, e, n)
    ensures Matches(r, text, t, e) && MatchesAt(r, text, t)
  {
    hide Matches, Derives, Fits, NoBackref, Len;
    var d, j, m := PathTree(p, x, r, text, t, e, n);
    TreeMatches(d, r, text, t, j);
    assert Matches(r, text, t, j);
  }

  lemma MatchAccepts(p: Program, x: nat, r: Re, text: seq<byte>, t: nat) returns (e: nat, n: nat)
    requires Fits(p, x, r) && 0 <= x + Len(r) < |p| && p[x + Len(r)] == End && MatchesAt(r, text, t)
    ensures t <= |text| && Acc(p, text, x, t, e, n)
  {
    hide Matches, Derives, Fits, Len;
    e :| e <= |text| && Matches(r, text, t, e);
    var d := MatchTree(r, text, t, e);
    n := TreePath(p, x, r, text, d, t, e, e, 0);
  }

  /** At a given place: the matcher loses a match exactly when it updates the loop, the tail does not
      match behind all the characters, and it matches somewhere before. */
  lemma TailLost(cl: CharClass, r: Re, text: seq<byte>, pos: nat)
    requires Tail(r) && Forks(r) <= MAX_FAILURES && pos <= |text|
    ensures LostAt(Loop(cl, r), text, pos) <==>
      && Updated(cl, r) && !MatchesAt(r, text, RunEnd(cl, text, pos))
      && exists t: nat :: pos <= t < RunEnd(cl, text, pos) && MatchesAt(r, text, t)
  {
    hide Updated, RunEnd, MatchesAt, Answer, Tail, Forks, Sound, AllStarts, Pristine, Backtrack, Steady, Encodable,
      NoBackref;
    var re, m := Loop(cl, r), RunEnd(cl, text, pos);
    RunEndAt(cl, text, pos);
    LoopMatches(cl, r, text, pos);
    TailIs(r);
    LoopEncodable(cl, r);
    var o := HasAnswer(re, text, pos);
    if Updated(cl, r) {
      TailAnswer(cl, r, text, pos, o);
      TailFails(cl, r, text, m);
      if LostAt(re, text, pos) { SameAnswer(re, text, pos, Fail, o); }
    } else if LostAt(re, text, pos) {
      NeverUpdated(cl, r);
      AnswerRight(re, text, pos, Fail);
      RightHere(re, text, pos, Fail);
    }
  }

  // ----- tails that consume -----

  /** A way to the end that consumes nothing goes through a tail that need not consume. */
  lemma {:induction false} EndsThrough(p: Program, o: nat, r: Re, tested: bool, n: nat) returns (tested': bool, n': nat)
    requires Fits(p, o, r) && LoopFree(r) && EndsBy(p, o, tested, n)
    ensures Nullable(r) && n' <= n && EndsBy(p, o + Len(r), tested', n')
    decreases r, 1
  {
    hide *;
    FreeIs(r);
    match r
    case Seq(x, y) =>
      SeqLayout(p, o, x, y);
      SeqParts(x, y, o);
      tested', n' := EndsThrough(p, o, x, tested, n);
      tested', n' := EndsThrough(p, o + Len(x), y, tested', n');
    case Alt(x, y) => tested', n' := AltEnds(p, o, x, y, tested, n);
    case Opt(b) =>
      OptLayout(p, o, b);
      OptParts(b, o);
      EndsStep(p, o, tested, n);
      if EndsBy(p, o + 3, tested, n - 1) {
        tested', n' := EndsThrough(p, o + 3, b, tested, n - 1);
      } else {
        tested', n' := tested, n - 1;
      }
    case Group(g, b) =>
      GroupLayout(p, o, g, b);
      GroupParts(g, b, o);
      if g == 0 {
        tested', n' := EndsThrough(p, o, b, tested, n);
      } else {
        EndsStep(p, o, tested, n);
        tested', n' := EndsThrough(p, o + 2, b, tested, n - 1);
        EndsStep(p, o + 2 + Len(b), tested', n');
        n' := n' - 1;
      }
    case _ => tested', n' := LeafEnds(p, o, r, tested, n);
  }

  lemma {:induction false} AltEnds(p: Program, o: nat, x: Re, y: Re, tested: bool, n: nat)
      returns (tested': bool, n': nat)
    requires Fits(p, o, Alt(x, y)) && LoopFree(Alt(x, y)) && EndsBy(p, o, tested, n)
    ensures Nullable(Alt(x, y)) && n' <= n && EndsBy(p, o + Len(Alt(x, y)), tested', n')
    decreases Alt(x, y), 0
  {
    hide *;
    FreeIs(Alt(x, y));
    AltLayout(p, o, x, y);
    AltParts(x, y, o);
    EndsStep(p, o, tested, n);
    if EndsBy(p, o + 3, tested, n - 1) {
      tested', n' := EndsThrough(p, o + 3, x, tested, n - 1);
      EndsStep(p, o + 3 + Len(x), tested', n');
      n' := n' - 1;
    } else {
      tested', n' := EndsThrough(p, o + 6 + Len(x), y, tested, n - 1);
    }
  }

  lemma LeafEnds(p: Program, o: nat, r: Re, tested: bool, n: nat) returns (tested': bool, n': nat)
    requires r.Eps? || r.Atom? || r.Assert? || r.Backref?
    requires Fits(p, o, r) && EndsBy(p, o, tested, n)
    ensures Nullable(r) && n' <= n && EndsBy(p, o + Len(r), tested', n')
  {
    tested', n' := tested, n;
    if r.Assert? {
      n' := n - 1;
      tested' := EndsBy(p, o + 1, true, n - 1);
    }
  }

  lemma EndsStep(p: Program, pc: int, tested: bool, n: nat)
    requires EndsBy(p, pc, tested, n)
    ensures 0 <= pc < |p|
    ensures p[pc].Fork? ==> n > 0 && (EndsBy(p, p[pc].next, tested, n - 1) || EndsBy(p, p[pc].alt, tested, n - 1))
    ensures p[pc].Jump? || p[pc].Mem? ==> n > 0 && EndsBy(p, p[pc].next, tested, n - 1)
  {
  }

  /** A loop whose tail cannot match without consuming loses nothing. */
  lemma ConsumingTail(cl: CharClass, r: Re)
    requires Tail(r) && !Nullable(r)
    ensures Steady(Loop(cl, r))
  {
    hide *;
    TailStarts(cl, r);
    LoopLaid(cl, r);
    TailIs(r);
    var p, S, x := Pristine(Loop(cl, r)), AllStarts(Loop(cl, r)), TailAt(cl);
    LoopCodeParts(p, cl, r);
    OneStar(p, S, Starts(r, x), cl, r);
    forall tested: bool, n: nat ensures !EndsBy(p, x, tested, n) {
      if EndsBy(p, x, tested, n) { var _, _ := EndsThrough(p, x, r, tested, n); }
    }
    NotTied(p, S, StarAt(cl), x);
    SteadyIs(Loop(cl, r));
  }

  lemma NotTied(p: Program, S: set<int>, s: int, x: int)
    requires x == s + 3 && (forall s', c :: MayUpdate(p, S, s', c) ==> s' == s)
    requires forall tested: bool, n: nat :: !EndsBy(p, x, tested, n)
    ensures Harmless(p, S)
  {
    hide MayUpdate, EndsBy;
  }
}
