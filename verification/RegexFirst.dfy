/** What a program can do before it consumes anything, and why forgetting a failure point of a
    simple loop loses no match. */
module RegexFirst {
  import opened RegexSyntax
  import opened RegexProgram
  import opened RegexStructure

  /** The first thing met on the way: a character that is consumed, the end of the pattern, or `$`.
      A `$` also lets the newline through, because it holds in front of one. */
  datatype Goal = Char(c: byte) | ToEnd | AtEol

  predicate Opens(q: Program, pc: int, g: Goal, n: nat)
    decreases n
  {
    && 0 <= pc < |q|
    && match q[pc]
       case End => g.ToEnd?
       case Eat(cl, _) => g.Char? && Accepts(cl, g.c)
       case Back(_, _) => false
       case Bad => false
       case Fork(x, y) => n > 0 && (Opens(q, x, g, n - 1) || Opens(q, y, g, n - 1))
       case _ =>
         if q[pc].Test? && q[pc].a.Eol? then g.AtEol? || g == Char(NEWLINE)
         else n > 0 && Opens(q, q[pc].next, g, n - 1)
  }

  ghost predicate CanOpen(q: Program, pc: int, g: Goal) {
    exists n: nat :: Opens(q, pc, g, n)
  }

  /** The offset of the instruction that consumes first on the straight way from x, or -1. */
  function EaterAt(p: Program, x: int): int
    decreases |p| - x
  {
    if !(0 <= x < |p|) then -1
    else if p[x].Eat? then x
    else if (p[x].Test? || p[x].Mem?) && x < p[x].next then EaterAt(p, p[x].next)
    else -1
  }

  lemma {:induction false} EaterAhead(p: Program, S: set<int>, x: int)
    requires Sound(p, S) && x in S && EaterAt(p, x) != -1
    ensures x <= EaterAt(p, x) < |p| && EaterAt(p, x) in S && p[EaterAt(p, x)].Eat?
    decreases |p| - x
  {
    hide Sound;
    SoundAt(p, S, x);
    if !p[x].Eat? { EaterAhead(p, S, p[x].next); }
  }

  lemma SoundAt(p: Program, S: set<int>, pc: int)
    requires Sound(p, S) && pc in S
    ensures LocalOk(p, S, pc)
  {
  }

  lemma SoundPair(p: Program, S: set<int>, s: int, pc: int)
    requires Sound(p, S) && s in S && pc in S && 0 <= s < |p| && 0 <= pc < |p| && p[s].StarJump?
    ensures Guarded(p, S, s, pc)
  {
  }

  /** The star jump at s closes a straight loop whose body consumes a character of class cl first. */
  ghost predicate SimpleLoop(p: Program, S: set<int>, s: int, cl: CharClass) {
    && s in S && 0 <= s < |p| && p[s].StarJump?
    && Straight(p, S, p[s].next + 3, s)
    && var ea := EaterAt(p, p[s].next + 3);
    && 0 <= ea < s && p[ea].Eat? && p[ea].cl == cl
  }

  /** x lies in the loop of s, past the instruction that consumes first. */
  ghost predicate Behind(p: Program, s: int, x: int)
    requires 0 <= s < |p| && p[s].StarJump?
  {
    EaterAt(p, p[s].next + 3) < x <= s
  }

  /** No simple loop has pc past its first consuming instruction. */
  ghost predicate Ahead(p: Program, S: set<int>, pc: int) {
    forall s, cl :: SimpleLoop(p, S, s, cl) ==> !Behind(p, s, pc)
  }

  ghost predicate EndsAnywhere(p: Program, text: seq<byte>, pc: int, n: nat) {
    forall u: nat :: u <= |text| ==> Acc(p, text, pc, u, u, n)
  }

  ghost predicate EndsFreely(p: Program, text: seq<byte>, pc: int) {
    exists n: nat :: EndsAnywhere(p, text, pc, n)
  }

  /** If p can accept from exit at a character of class cl, then it can accept there without
      looking at the text at all, and so at every position. */
  ghost predicate Forgettable(p: Program, exit: int, cl: CharClass) {
    forall text: seq<byte>, t: nat, e: nat, n: nat ::
      t < |text| && Accepts(cl, text[t]) && Acc(p, text, exit, t, e, n) ==> EndsFreely(p, text, exit)
  }

  /** Nothing that the program at `exit` can begin with is of class cl. */
  ghost predicate Disjoint(q: Program, exit: int, cl: CharClass) {
    forall c: byte :: Accepts(cl, c) ==> !CanOpen(q, exit, Char(c))
  }

  /** The matcher turns the star jump at s into an update jump: the loop is simple, its first consumer
      is a character, a set or `.`, and no character it accepts can begin what follows the loop. */
  ghost predicate MayUpdate(p: Program, S: set<int>, s: int, cl: CharClass) {
    SimpleLoop(p, S, s, cl) && !cl.Syntax? && !cl.NotSyntax? && Disjoint(p, s + 3, cl)
  }

  /** The end of the pattern can be reached from pc before anything is consumed, by a way on which
      there is no `$` and no `\'`; `tested` tells whether there is any other zero-width operator. */
  predicate EndsBy(p: Program, pc: int, tested: bool, n: nat)
    decreases n
  {
    && 0 <= pc < |p|
    && match p[pc]
       case End => !tested
       case Eat(_, _) => false
       case Back(_, _) => false
       case Bad => false
       case Test(a, x) => tested && !a.Eol? && !a.EndBuf? && n > 0
         && (EndsBy(p, x, true, n - 1) || EndsBy(p, x, false, n - 1))
       case Fork(x, y) => n > 0 && (EndsBy(p, x, tested, n - 1) || EndsBy(p, y, tested, n - 1))
       case _ => n > 0 && EndsBy(p, p[pc].next, tested, n - 1)
  }

  ghost predicate CanEndBy(p: Program, pc: int, tested: bool) {
    exists n: nat :: EndsBy(p, pc, tested, n)
  }

  /** A match may end at once at pc, but whether it may depends on what stands around. */
  ghost predicate Tied(p: Program, pc: int) {
    CanEndBy(p, pc, true) && !CanEndBy(p, pc, false)
  }

  /** Whatever the matcher rewrites, it loses no match: no loop that it updates is followed by an end
      of the pattern that depends on zero-width operators other than `$` and `\'`. */
  ghost predicate Harmless(p: Program, S: set<int>) {
    forall s, cl :: MayUpdate(p, S, s, cl) ==> !Tied(p, s + 3)
  }

  /** In particular when `$` is the only zero-width operator there is. */
  lemma OnlyEolHarmless(p: Program, S: set<int>)
    requires Sound(p, S) && OnlyEolTests(p, S)
    ensures Harmless(p, S)
  {
    hide Sound, OnlyEolTests, EndsBy, Disjoint;
    forall s, cl | MayUpdate(p, S, s, cl)
      ensures !Tied(p, s + 3)
    {
      SoundAt(p, S, s);
      var exit := s + 3;
      forall n: nat ensures !EndsBy(p, exit, true, n) { NoTestMet(p, S, exit, n); }
    }
  }

  lemma {:induction false} NoTestMet(p: Program, S: set<int>, pc: int, n: nat)
    requires Sound(p, S) && OnlyEolTests(p, S) && pc in S
    ensures !EndsBy(p, pc, true, n)
    decreases n
  {
    hide Sound;
    SoundAt(p, S, pc);
    var i := p[pc];
    if n > 0 && !i.End? && !i.Eat? && !i.Back? && !i.Bad? && !i.Test? {
      NoTestMet(p, S, i.next, n - 1);
      if i.Fork? { NoTestMet(p, S, i.alt, n - 1); }
    }
  }

  /** An update jump is allowed for the star jump at s. */
  ghost predicate Updatable(p: Program, S: set<int>, s: int, cl: CharClass) {
    SimpleLoop(p, S, s, cl) && (Harmless(p, S) ==> Forgettable(p, s + 3, cl))
  }

  /** q[pc] is p[pc], or p[pc] is a star jump that has been rewritten to a plain jump or, where
      that is allowed, to an update jump into the loop body. */
  ghost predicate SameOrRewritten(p: Program, S: set<int>, q: Program, pc: int)
    requires 0 <= pc < |p| == |q|
  {
    || q[pc] == p[pc]
    || (p[pc].StarJump? && q[pc] == Jump(p[pc].next))
    || (p[pc].StarJump? && q[pc] == UpdateJump(p[pc].next + 3) && exists cl :: Updatable(p, S, pc, cl))
  }

  ghost predicate Rewritten(p: Program, S: set<int>, q: Program) {
    |q| == |p| && forall pc :: pc in S && 0 <= pc < |p| ==> SameOrRewritten(p, S, q, pc)
  }

  lemma RewrittenAt(p: Program, S: set<int>, q: Program, pc: int)
    requires Rewritten(p, S, q) && pc in S && 0 <= pc < |p|
    ensures |q| == |p| && SameOrRewritten(p, S, q, pc)
  {
  }

  lemma UpdatableParts(p: Program, S: set<int>, s: int, cl: CharClass)
    requires Updatable(p, S, s, cl)
    ensures SimpleLoop(p, S, s, cl) && s in S && 0 <= s < |p| && p[s].StarJump?
    ensures Harmless(p, S) ==> Forgettable(p, s + 3, cl)
  {
  }

  /** A step that consumes nothing does not get behind an eater. */
  lemma StepAhead(p: Program, S: set<int>, pc: int, x: int)
    requires Sound(p, S)
    requires pc in S && 0 <= pc < |p| && Leads(p[pc], x) && !p[pc].Eat? && Ahead(p, S, pc)
    ensures x in S && Ahead(p, S, x)
  {
    hide Sound;
    SoundAt(p, S, pc);
    forall s, cl | SimpleLoop(p, S, s, cl)
      ensures !Behind(p, s, x)
    {
      var b := p[s].next + 3;
      SoundAt(p, S, s);
      EaterAhead(p, S, b);
      SoundPair(p, S, s, pc);
      if b <= x <= s && b <= pc < s {
        EaterStays(p, S, b, pc);
      }
    }
  }

  /** Before the eater, straight steps do not pass it. */
  lemma EaterStays(p: Program, S: set<int>, b: int, pc: int)
    requires Sound(p, S) && b in S && pc in S && EaterAt(p, b) != -1 && 0 <= pc < |p|
    requires b <= pc <= EaterAt(p, b) && !p[pc].Eat? && Plain(p[pc])
    ensures p[pc].next <= EaterAt(p, b)
  {
    SoundAt(p, S, pc);
    EaterAhead(p, S, b);
    NoOverlap(p, 0, pc, EaterAt(p, b));
  }

  /** The start of the code, and what any instruction pushes, are ahead. */
  lemma ExitAhead(p: Program, S: set<int>, pc: int)
    requires Sound(p, S) && pc in S && 0 <= pc < |p| && (p[pc].Fork? || p[pc].Dummy?)
    ensures p[pc].alt in S && Ahead(p, S, p[pc].alt)
  {
    hide Sound;
    SoundAt(p, S, pc);
    forall s, cl | SimpleLoop(p, S, s, cl)
      ensures !Behind(p, s, p[pc].alt)
    {
      var b := p[s].next + 3;
      SoundAt(p, S, s);
      EaterAhead(p, S, b);
      SoundPair(p, S, s, pc);
      assert Leads(p[pc], p[pc].alt);
    }
  }

  lemma StartAhead(p: Program, S: set<int>)
    requires Sound(p, S) && 0 in S
    ensures Ahead(p, S, 0)
  {
    forall s, cl | SimpleLoop(p, S, s, cl)
      ensures !Behind(p, s, 0)
    {
      SoundAt(p, S, s);
      EaterAhead(p, S, p[s].next + 3);
    }
  }

  // ----- what a match does first -----

  /** Ahead of all eaters, rewriting has changed no more than a star jump into a jump. */
  lemma NotRewritten(p: Program, S: set<int>, q: Program, pc: int)
    requires Sound(p, S) && Rewritten(p, S, q) && pc in S && Ahead(p, S, pc)
    ensures LocalOk(p, S, pc) && |q| == |p|
    ensures q[pc] == p[pc] || (p[pc].StarJump? && q[pc] == Jump(p[pc].next))
  {
    SoundAt(p, S, pc);
    assert SameOrRewritten(p, S, q, pc);
    if cl :| Updatable(p, S, pc, cl) {
      assert false;
    }
  }

  /** Every way in which p can accept from pc at t is seen by Opens on the rewritten program.
      When nothing is consumed in front of a character, then no `$` and no `\'` is on the way. */
  lemma {:induction false} AcceptOpens(p: Program, S: set<int>, q: Program, text: seq<byte>, pc: int, t: nat, e: nat,
          n: nat)
      returns (g: Goal)
    requires Sound(p, S) && Rewritten(p, S, q) && pc in S && Ahead(p, S, pc)
    requires t <= |text| && Acc(p, text, pc, t, e, n)
    ensures Opens(q, pc, g, n)
    ensures g.Char? ==> t < |text| && text[t] == g.c
    ensures g.AtEol? ==> t == |text|
    ensures g.ToEnd? && t < |text| ==> EndsBy(p, pc, true, n) || EndsBy(p, pc, false, n)
    decreases n
  {
    hide Ahead, Rewritten, Sound;
    NotRewritten(p, S, q, pc);
    var i := p[pc];
    if i.End? {
      g := ToEnd;
    } else if i.Eat? {
      g := Char(text[t]);
    } else if i.Test? && i.a.Eol? {
      g := if t == |text| then AtEol else Char(NEWLINE);
    } else if i.Passes(text, t) && Acc(p, text, i.next, t + i.Width(), e, n - 1) {
      StepAhead(p, S, pc, i.next);
      g := AcceptOpens(p, S, q, text, i.next, t, e, n - 1);
    } else {
      StepAhead(p, S, pc, i.alt);
      g := AcceptOpens(p, S, q, text, i.alt, t, e, n - 1);
    }
  }

  /** Where nothing is tested, the match may end at every position. */
  lemma {:induction false} EndsUntested(p: Program, text: seq<byte>, pc: int, n: nat)
    requires EndsBy(p, pc, false, n)
    ensures EndsAnywhere(p, text, pc, n)
    decreases n
  {
    var i := p[pc];
    if !i.End? {
      var x := if i.Fork? && !EndsBy(p, i.next, false, n - 1) then i.alt else i.next;
      EndsUntested(p, text, x, n - 1);
      forall u: nat | u <= |text| ensures Acc(p, text, pc, u, u, n) { assert Acc(p, text, x, u, u, n - 1); }
    }
  }

  lemma NotFirst(q: Program, exit: int, cl: CharClass, c: byte, n: nat)
    requires Disjoint(q, exit, cl) && Accepts(cl, c)
    ensures !Opens(q, exit, Char(c), n)
  {
    assert !CanOpen(q, exit, Char(c));
  }

  /** Forgetting a failure point (exit, t) in favour of (exit, u) loses no match, when the loop
      body consumed a character at t that the exit cannot begin with. */
  lemma DisjointForgettable(p: Program, S: set<int>, s: int, cl: CharClass)
    requires Sound(p, S) && MayUpdate(p, S, s, cl)
    ensures Updatable(p, S, s, cl)
  {
    hide Sound, Ahead, Rewritten, SimpleLoop, Opens, Acc, Disjoint, Accepts, EndsBy, Tied, EndsFreely;
    RewrittenRefl(p, S);
    LoopIn(p, S, s, cl);
    SoundAt(p, S, s);
    ExitAhead(p, S, p[s].next);
    if Harmless(p, S) {
      var exit := s + 3;
      assert !Tied(p, exit);
      forall text: seq<byte>, t: nat, e: nat, n: nat | t < |text| && Accepts(cl, text[t]) && Acc(p, text, exit, t, e, n)
        ensures EndsFreely(p, text, exit)
      {
        NotFirst(p, exit, cl, text[t], n);
        var g := AcceptOpens(p, S, p, text, exit, t, e, n);
        UntiedEnds(p, text, exit, n);
      }
    }
  }

  lemma UntiedEnds(p: Program, text: seq<byte>, pc: int, n: nat)
    requires !Tied(p, pc) && (EndsBy(p, pc, true, n) || EndsBy(p, pc, false, n))
    ensures EndsFreely(p, text, pc)
  {
    hide EndsBy, EndsAnywhere;
    var m: nat :| EndsBy(p, pc, false, m);
    EndsUntested(p, text, pc, m);
  }

  lemma LoopIn(p: Program, S: set<int>, s: int, cl: CharClass)
    requires SimpleLoop(p, S, s, cl)
    ensures s in S && 0 <= s < |p| && p[s].StarJump?
  {
  }

  lemma RewrittenRefl(p: Program, S: set<int>)
    ensures Rewritten(p, S, p)
  {
    hide Updatable;
  }

  // ----- rewriting is invisible to what can come first -----

  lemma {:induction false} OpensSame(p: Program, S: set<int>, q: Program, pc: int, g: Goal, n: nat)
    requires Sound(p, S) && Rewritten(p, S, q) && pc in S && Ahead(p, S, pc)
    ensures Opens(q, pc, g, n) <==> Opens(p, pc, g, n)
    decreases n
  {
    hide Sound, Rewritten, Ahead;
    NotRewritten(p, S, q, pc);
    var i := p[pc];
    if n > 0 && !i.End? && !i.Eat? && !i.Back? && !i.Bad? && !(i.Test? && i.a.Eol?) {
      StepAhead(p, S, pc, i.next);
      OpensSame(p, S, q, i.next, g, n - 1);
      if i.Fork? {
        StepAhead(p, S, pc, i.alt);
        OpensSame(p, S, q, i.alt, g, n - 1);
      }
    }
  }

  lemma CanOpenSame(p: Program, S: set<int>, q: Program, pc: int, g: Goal)
    requires Sound(p, S) && Rewritten(p, S, q) && pc in S && Ahead(p, S, pc)
    ensures CanOpen(q, pc, g) <==> CanOpen(p, pc, g)
  {
    hide Sound, Rewritten, Ahead, Opens;
    if n: nat :| Opens(q, pc, g, n) { OpensSame(p, S, q, pc, g, n); }
    if n: nat :| Opens(p, pc, g, n) { OpensSame(p, S, q, pc, g, n); }
  }
}
