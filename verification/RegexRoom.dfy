/** How many failure points a pattern needs: when the matcher can answer -2, and when it must. */
module RegexRoom {
  import opened RegexSyntax
  import opened RegexProgram
  import opened RegexStructure
  import opened RegexBacktrack
  import opened RegexFirst
  import opened RegexMachine
  import opened RegexRuns

  /** re can match without consuming anything, somewhere. */
  predicate Nullable(re: Re) {
    match re
    case Eps => true
    case Atom(_) => false
    case Assert(_) => true
    case Backref(_) => true
    case Seq(l, r) => Nullable(l) && Nullable(r)
    case Alt(l, r) => Nullable(l) || Nullable(r)
    case Opt(_) => true
    case Star(_) => true
    case Plus(b) => Nullable(b)
    case Group(_, b) => Nullable(b)
  }

  /** A pattern that matches the empty text at some place can match without consuming. */
  lemma {:induction false} EmptyNullable(re: Re, text: seq<byte>, i: nat)
    requires i <= |text| && Matches(re, text, i, i)
    ensures Nullable(re)
    decreases re
  {
    match re
    case Seq(l, r) => EmptyNullable(l, text, i); EmptyNullable(r, text, i);
    case Alt(l, r) => if Matches(l, text, i, i) { EmptyNullable(l, text, i); } else { EmptyNullable(r, text, i); }
    case Plus(b) => EmptyNullable(b, text, i);
    case Group(_, b) => EmptyNullable(b, text, i);
    case _ =>
  }

  /** Without zero-width operators it then matches the empty text at every place. */
  lemma {:induction false} NullableExactly(re: Re, text: seq<byte>, i: nat)
    requires TestFree(re) && NoBackref(re) && i <= |text|
    ensures Matches(re, text, i, i) <==> Nullable(re)
    decreases re
  {
    if Matches(re, text, i, i) { EmptyNullable(re, text, i); }
    match re
    case Seq(l, r) => NullableExactly(l, text, i); NullableExactly(r, text, i);
    case Alt(l, r) => NullableExactly(l, text, i); NullableExactly(r, text, i);
    case Plus(b) => NullableExactly(b, text, i);
    case Group(_, b) => NullableExactly(b, text, i);
    case _ =>
  }

  /** No loop of re has a body that can match without consuming anything. */
  predicate LoopsConsume(re: Re) {
    match re
    case Seq(l, r) => LoopsConsume(l) && LoopsConsume(r)
    case Alt(l, r) => LoopsConsume(l) && LoopsConsume(r)
    case Opt(b) => LoopsConsume(b)
    case Star(b) => LoopsConsume(b) && !Nullable(b)
    case Plus(b) => LoopsConsume(b) && !Nullable(b)
    case Group(_, b) => LoopsConsume(b)
    case _ => true
  }

  function Max(m: nat, n: nat): nat {
    if m < n then n else m
  }

  /** Failure points that one way through re leaves, loops gone through once. */
  function Forks(re: Re): nat {
    match re
    case Seq(l, r) => Forks(l) + Forks(r)
    case Alt(l, r) => 1 + Max(Forks(l), Forks(r))
    case Opt(b) => 1 + Forks(b)
    case Star(b) => 1 + Forks(b)
    case Plus(b) => 1 + Forks(b)
    case Group(_, b) => Forks(b)
    case _ => 0
  }

  /** Failure points that going round loops adds, for each character. */
  function PerChar(re: Re): nat {
    match re
    case Seq(l, r) => Max(PerChar(l), PerChar(r))
    case Alt(l, r) => Max(PerChar(l), PerChar(r))
    case Opt(b) => PerChar(b)
    case Star(b) => 1 + Forks(b) + PerChar(b)
    case Plus(b) => 1 + Forks(b) + PerChar(b)
    case Group(_, b) => PerChar(b)
    case _ => 0
  }

  // ----- enough room -----

  function Need(a: nat, per: nat, rem: nat): nat {
    a + per * rem
  }

  lemma {:induction false} NeedLess(a: nat, a': nat, per: nat, rem: nat, rem': nat)
    requires rem' < rem && a' <= a + per
    ensures Need(a', per, rem') <= Need(a, per, rem)
    decreases rem
  {
    assert per * rem == per * (rem - 1) + per;
    if rem' < rem - 1 { NeedLess(a, a', per, rem - 1, rem'); }
  }

  lemma NeedMore(a: nat, a': nat, per: nat, rem: nat)
    ensures a <= a' ==> Need(a, per, rem) <= Need(a', per, rem)
    ensures Need(a + a', per, rem) == Need(a, per, rem) + a'
  {
  }

  /** No way from pc runs out of room if there are k failure points. */
  ghost predicate Enough(p: Program, S: set<int>, text: seq<byte>, pc: int, t: nat, k: nat)
    requires Sound(p, S)
  {
    pc in S && t <= |text| && RoomFor(p, S, text, pc, t, k)
  }

  lemma EnoughMore(p: Program, S: set<int>, text: seq<byte>, pc: int, t: nat, k: nat, k': nat)
    requires Sound(p, S) && Enough(p, S, text, pc, t, k) && k <= k'
    ensures Enough(p, S, text, pc, t, k')
  {
    hide Sound, RoomFor;
    RoomForMore(p, S, text, pc, t, k, k');
  }

  /** One step. */
  lemma EnoughStep(p: Program, S: set<int>, text: seq<byte>, pc: int, t: nat, k: nat)
    requires Sound(p, S) && pc in S && t <= |text|
    ensures 0 <= pc < |p|
    ensures !p[pc].End? && !p[pc].Fork? && !p[pc].Dummy? ==>
      (!p[pc].Passes(text, t) ==> Enough(p, S, text, pc, t, k))
      && (p[pc].Passes(text, t) && Enough(p, S, text, p[pc].next, t + p[pc].Width(), k) ==>
        Enough(p, S, text, pc, t, k))
    ensures p[pc].Fork? && k > 0 && Enough(p, S, text, p[pc].next, t, k - 1) && Enough(p, S, text, p[pc].alt, t, k) ==>
      Enough(p, S, text, pc, t, k)
    ensures p[pc].Dummy? && k > 0 && Enough(p, S, text, p[pc].next, t, k - 1) ==> Enough(p, S, text, pc, t, k)
    ensures p[pc].End? ==> Enough(p, S, text, pc, t, k)
  {
    hide Sound;
    RankFalls(p, S, pc);
  }

  ghost predicate EnoughAt(p: Program, S: set<int>, text: seq<byte>, pc: int, t: nat, per: nat, a: nat)
    requires Sound(p, S)
  {
    t <= |text| && Enough(p, S, text, pc, t, Need(a, per, |text| - t))
  }

  /** What lies behind a node has enough room: with a if the node has consumed nothing, which it may
      if empty, and with b if it has consumed something. */
  ghost predicate After(p: Program, S: set<int>, text: seq<byte>, exit: int, t: nat, per: nat, a: nat, b: nat,
          empty: bool)
    requires Sound(p, S)
  {
    && t <= |text| && a <= b
    && (empty ==> EnoughAt(p, S, text, exit, t, per, a))
    && Later(p, S, text, exit, t, per, b)
  }

  ghost predicate Later(p: Program, S: set<int>, text: seq<byte>, pc: int, t: nat, per: nat, a: nat)
    requires Sound(p, S)
  {
    forall u: nat :: t < u <= |text| ==> EnoughAt(p, S, text, pc, u, per, a)
  }

  lemma AfterIs(p: Program, S: set<int>, text: seq<byte>, exit: int, t: nat, per: nat, a: nat, b: nat, empty: bool)
    requires Sound(p, S)
    ensures After(p, S, text, exit, t, per, a, b, empty) <==>
      && t <= |text| && a <= b
      && (empty ==> EnoughAt(p, S, text, exit, t, per, a))
      && forall u: nat :: t < u <= |text| ==> EnoughAt(p, S, text, exit, u, per, b)
    ensures Later(p, S, text, exit, t, per, b) <==> forall u: nat :: t < u <= |text| ==>
      EnoughAt(p, S, text, exit, u, per, b)
  {
    hide EnoughAt, Sound;
  }

  lemma EnoughIs(p: Program, S: set<int>, text: seq<byte>, pc: int, t: nat, per: nat, a: nat)
    requires Sound(p, S)
    ensures EnoughAt(p, S, text, pc, t, per, a) <==> t <= |text| && Enough(p, S, text, pc, t, Need(a, per, |text| - t))
    ensures Enough(p, S, text, pc, t, if t <= |text| then Need(a, per, |text| - t) else 0) ==> pc in S && t <= |text|
  {
    hide Sound;
  }

  /** An instruction that only leads on. */
  lemma Through(p: Program, S: set<int>, text: seq<byte>, pc: int, t: nat, per: nat, a: nat)
    requires Sound(p, S) && pc in S && 0 <= pc < |p| && (p[pc].Jump? || p[pc].StarJump? || p[pc].Mem?)
    requires EnoughAt(p, S, text, p[pc].next, t, per, a)
    ensures EnoughAt(p, S, text, pc, t, per, a)
  {
    hide Sound, Enough, Need;
    EnoughStep(p, S, text, pc, t, Need(a, per, |text| - t));
  }

  /** More room than needed. */
  lemma Spare(p: Program, S: set<int>, text: seq<byte>, pc: int, t: nat, per: nat, a: nat, a': nat)
    requires Sound(p, S) && EnoughAt(p, S, text, pc, t, per, a) && a <= a'
    ensures EnoughAt(p, S, text, pc, t, per, a')
  {
    hide Sound, Enough, Need;
    NeedMore(a, a', per, |text| - t);
    EnoughMore(p, S, text, pc, t, Need(a, per, |text| - t), Need(a', per, |text| - t));
  }

  /** A failure jump leaves one failure point. */
  lemma Forked(p: Program, S: set<int>, text: seq<byte>, pc: int, t: nat, per: nat, a: nat)
    requires Sound(p, S) && pc in S && 0 <= pc < |p| && (p[pc].Fork? || p[pc].Dummy?)
    requires EnoughAt(p, S, text, p[pc].next, t, per, a)
    requires p[pc].Fork? ==> EnoughAt(p, S, text, p[pc].alt, t, per, a + 1)
    ensures EnoughAt(p, S, text, pc, t, per, a + 1)
  {
    hide Sound, Enough, Need;
    NeedMore(a, 1, per, |text| - t);
    EnoughStep(p, S, text, pc, t, Need(a + 1, per, |text| - t));
  }

  /** If what lies behind the code of re has enough room, then so has the code. */
  lemma {:induction false} NodeEnough(p: Program, S: set<int>, o: nat, re: Re, text: seq<byte>, t: nat, per: nat,
          a: nat, b: nat)
    requires Sound(p, S) && Fits(p, o, re) && NoBackref(re) && Starts(re, o) <= S && o + Len(re) in S
      && LoopsConsume(re)
    requires b + PerChar(re) <= a + per && After(p, S, text, o + Len(re), t, per, a, b, Nullable(re))
    ensures EnoughAt(p, S, text, o, t, per, a + Forks(re))
    decreases re, 1, 0
  {
    hide *;
    if re.Eps? || re.Atom? || re.Assert? || re.Backref? {
      LeafEnough(p, S, o, re, text, t, per, a, b);
    } else {
      match re
      case Seq(l, r) => SeqEnough(p, S, o, l, r, text, t, per, a, b);
      case Alt(l, r) => AltEnough(p, S, o, l, r, text, t, per, a, b);
      case Opt(x) => OptEnough(p, S, o, x, text, t, per, a, b);
      case Star(x) => StarEnough(p, S, o, x, text, t, per, a, b);
      case Plus(x) => PlusEnough(p, S, o, x, text, t, per, a, b);
      case Group(g, x) => GroupEnough(p, S, o, g, x, text, t, per, a, b);
    }
  }

  lemma LeafEnough(p: Program, S: set<int>, o: nat, re: Re, text: seq<byte>, t: nat, per: nat, a: nat, b: nat)
    requires re.Eps? || re.Atom? || re.Assert? || re.Backref?
    requires Sound(p, S) && Fits(p, o, re) && NoBackref(re) && Starts(re, o) <= S && o + Len(re) in S
    requires b + PerChar(re) <= a + per && After(p, S, text, o + Len(re), t, per, a, b, Nullable(re))
    ensures EnoughAt(p, S, text, o, t, per, a + Forks(re))
  {
    hide Sound, Enough, Need;
    var k := Need(a, per, |text| - t);
    if !re.Eps? { EnoughStep(p, S, text, o, t, k); }
    if re.Atom? && t < |text| {
      NeedLess(a, b, per, |text| - t, |text| - (t + 1));
      assert EnoughAt(p, S, text, o + Len(re), t + 1, per, b);
      EnoughMore(p, S, text, o + Len(re), t + 1, Need(b, per, |text| - (t + 1)), k);
    }
  }

  lemma {:induction false} SeqEnough(p: Program, S: set<int>, o: nat, l: Re, r: Re, text: seq<byte>, t: nat, per: nat,
          a: nat, b: nat)
    requires var re := Seq(l, r);
      && Sound(p, S) && Fits(p, o, re) && NoBackref(re) && Starts(re, o) <= S && o + Len(re) in S && LoopsConsume(re)
      && b + PerChar(re) <= a + per && After(p, S, text, o + Len(re), t, per, a, b, Nullable(re))
    ensures EnoughAt(p, S, text, o, t, per, a + Forks(Seq(l, r)))
    decreases Seq(l, r), 0, 0
  {
    hide *;
    SeqParts(l, r, o);
    SeqLayout(p, o, l, r);
    MaxIs(PerChar(l), PerChar(r));
    var y, z := o + Len(l), o + Len(l) + Len(r);
    NodeInside(p, y, r, S);
    AfterIs(p, S, text, z, t, per, a, b, Nullable(Seq(l, r)));
    if Nullable(l) {
      AfterIs(p, S, text, z, t, per, a, b, Nullable(r));
      NodeEnough(p, S, y, r, text, t, per, a, b);
    }
    var more := b + Forks(r);
    forall u: nat | t < u <= |text| ensures EnoughAt(p, S, text, y, u, per, more) {
      AfterIs(p, S, text, z, u, per, b, b, Nullable(r));
      NodeEnough(p, S, y, r, text, u, per, b, b);
    }
    AfterIs(p, S, text, y, t, per, a + Forks(r), more, Nullable(l));
    NodeEnough(p, S, o, l, text, t, per, a + Forks(r), b + Forks(r));
  }

  lemma MaxIs(m: nat, n: nat)
    ensures m <= Max(m, n) && n <= Max(m, n)
  {
  }

  lemma SeqParts(l: Re, r: Re, o: nat)
    ensures var re := Seq(l, r);
      && Starts(re, o) == Starts(l, o) + Starts(r, o + Len(l)) && Len(re) == Len(l) + Len(r)
      && NoBackref(re) == (NoBackref(l) && NoBackref(r)) && LoopsConsume(re) == (LoopsConsume(l) && LoopsConsume(r))
      && Nullable(re) == (Nullable(l) && Nullable(r)) && Forks(re) == Forks(l) + Forks(r)
        && PerChar(re) == Max(PerChar(l), PerChar(r))
  {
    hide Max;
  }

  lemma {:induction false} AltEnough(p: Program, S: set<int>, o: nat, l: Re, r: Re, text: seq<byte>, t: nat, per: nat,
          a: nat, b: nat)
    requires var re := Alt(l, r);
      && Sound(p, S) && Fits(p, o, re) && NoBackref(re) && Starts(re, o) <= S && o + Len(re) in S && LoopsConsume(re)
      && b + PerChar(re) <= a + per && After(p, S, text, o + Len(re), t, per, a, b, Nullable(re))
    ensures EnoughAt(p, S, text, o, t, per, a + Forks(Alt(l, r)))
    decreases Alt(l, r), 0, 0
  {
    hide *;
    AltParts(l, r, o);
    AltLayout(p, o, l, r);
    MaxIs(PerChar(l), PerChar(r));
    MaxIs(Forks(l), Forks(r));
    var j, y, z := o + 3 + Len(l), o + 6 + Len(l), o + Len(Alt(l, r));
    NodeInside(p, o + 3, l, S);
    NodeInside(p, y, r, S);
    AfterIs(p, S, text, z, t, per, a, b, Nullable(Alt(l, r)));
    if Nullable(l) { Through(p, S, text, j, t, per, a); }
    forall u: nat | t < u <= |text| ensures EnoughAt(p, S, text, j, u, per, b) { Through(p, S, text, j, u, per, b); }
    AfterIs(p, S, text, j, t, per, a, b, Nullable(l));
    NodeEnough(p, S, o + 3, l, text, t, per, a, b);
    AfterIs(p, S, text, z, t, per, a, b, Nullable(r));
    NodeEnough(p, S, y, r, text, t, per, a, b);
    var n := a + Max(Forks(l), Forks(r));
    Spare(p, S, text, o + 3, t, per, a + Forks(l), n);
    Spare(p, S, text, y, t, per, a + Forks(r), n + 1);
    Forked(p, S, text, o, t, per, n);
  }

  lemma AltParts(l: Re, r: Re, o: nat)
    ensures var re := Alt(l, r);
      && Starts(re, o) == {o, o + 3 + Len(l)} + Starts(l, o + 3) + Starts(r, o + 6 + Len(l))
        && Len(re) == 6 + Len(l) + Len(r)
      && NoBackref(re) == (NoBackref(l) && NoBackref(r)) && LoopsConsume(re) == (LoopsConsume(l) && LoopsConsume(r))
      && Nullable(re) == (Nullable(l) || Nullable(r)) && Forks(re) == 1 + Max(Forks(l), Forks(r))
      && PerChar(re) == Max(PerChar(l), PerChar(r))
  {
    hide Max, Forks, PerChar, Nullable, LoopsConsume, NoBackref;
    AltCounts(l, r);
  }

  lemma AltCounts(l: Re, r: Re)
    ensures NoBackref(Alt(l, r)) == (NoBackref(l) && NoBackref(r))
      && LoopsConsume(Alt(l, r)) == (LoopsConsume(l) && LoopsConsume(r))
    ensures Nullable(Alt(l, r)) == (Nullable(l) || Nullable(r)) && Forks(Alt(l, r)) == 1 + Max(Forks(l), Forks(r))
    ensures PerChar(Alt(l, r)) == Max(PerChar(l), PerChar(r))
  {
    hide Max;
  }

  lemma {:induction false} OptEnough(p: Program, S: set<int>, o: nat, x: Re, text: seq<byte>, t: nat, per: nat,
          a: nat, b: nat)
    requires var re := Opt(x);
      && Sound(p, S) && Fits(p, o, re) && NoBackref(re) && Starts(re, o) <= S && o + Len(re) in S && LoopsConsume(re)
      && b + PerChar(re) <= a + per && After(p, S, text, o + Len(re), t, per, a, b, Nullable(re))
    ensures EnoughAt(p, S, text, o, t, per, a + Forks(Opt(x)))
    decreases Opt(x), 0, 0
  {
    hide *;
    OptParts(x, o);
    OptLayout(p, o, x);
    NodeInside(p, o + 3, x, S);
    var z := o + Len(Opt(x));
    AfterIs(p, S, text, z, t, per, a, b, true);
    AfterIs(p, S, text, z, t, per, a, b, Nullable(x));
    NodeEnough(p, S, o + 3, x, text, t, per, a, b);
    Spare(p, S, text, z, t, per, a, a + Forks(x) + 1);
    Forked(p, S, text, o, t, per, a + Forks(x));
  }

  lemma OptParts(b: Re, o: nat)
    ensures var re := Opt(b);
      && Starts(re, o) == {o} + Starts(b, o + 3) && Len(re) == 3 + Len(b) && NoBackref(re) == NoBackref(b)
      && LoopsConsume(re) == LoopsConsume(b) && Nullable(re) && Forks(re) == 1 + Forks(b) && PerChar(re) == PerChar(b)
  {
  }

  /** A loop whose body consumes something comes back with less text. */
  lemma {:induction false} LoopEnough(p: Program, S: set<int>, o: nat, x: Re, text: seq<byte>, t: nat, per: nat,
          a: nat, b: nat)
    requires Sound(p, S) && LoopFits(p, o, x) && NoBackref(x) && Starts(x, o + 3) <= S
      && {o, o + 3 + Len(x), o + 6 + Len(x)} <= S
    requires LoopsConsume(x) && !Nullable(x)
    requires b + 1 + Forks(x) + PerChar(x) <= a + per && After(p, S, text, o + 6 + Len(x), t, per, a, b, true)
    ensures EnoughAt(p, S, text, o, t, per, a + 1 + Forks(x))
    decreases x, 2, |text| - t
  {
    hide *;
    LoopLayout(p, o, x);
    NodeInside(p, o + 3, x, S);
    var s, z, b' := o + 3 + Len(x), o + 6 + Len(x), b + 1 + Forks(x);
    AfterIs(p, S, text, z, t, per, a, b, true);
    RoundEnough(p, S, o, x, text, t, per, a, b);
    AfterIs(p, S, text, s, t, per, a, b', false);
    NodeEnough(p, S, o + 3, x, text, t, per, a, b');
    Spare(p, S, text, z, t, per, a, a + Forks(x) + 1);
    Forked(p, S, text, o, t, per, a + Forks(x));
  }

  lemma {:induction false} RoundEnough(p: Program, S: set<int>, o: nat, x: Re, text: seq<byte>, t: nat, per: nat,
          a: nat, b: nat)
    requires Sound(p, S) && LoopFits(p, o, x) && NoBackref(x) && Starts(x, o + 3) <= S
      && {o, o + 3 + Len(x), o + 6 + Len(x)} <= S
    requires LoopsConsume(x) && !Nullable(x) && t <= |text| && a <= b
    requires b + 1 + Forks(x) + PerChar(x) <= a + per
    requires Later(p, S, text, o + 6 + Len(x), t, per, b)
    ensures Later(p, S, text, o + 3 + Len(x), t, per, b + 1 + Forks(x))
    decreases x, 2, |text| - t, 0
  {
    hide *;
    LoopLayout(p, o, x);
    var s, z, b' := o + 3 + Len(x), o + 6 + Len(x), b + 1 + Forks(x);
    AfterIs(p, S, text, z, t, per, a, b, false);
    forall u: nat | t < u <= |text| ensures EnoughAt(p, S, text, s, u, per, b') {
      AfterIs(p, S, text, z, u, per, b, b, true);
      LoopEnough(p, S, o, x, text, u, per, b, b);
      Through(p, S, text, s, u, per, b');
    }
    AfterIs(p, S, text, s, t, per, a, b', false);
  }

  lemma {:induction false} StarEnough(p: Program, S: set<int>, o: nat, x: Re, text: seq<byte>, t: nat, per: nat,
          a: nat, b: nat)
    requires var re := Star(x);
      && Sound(p, S) && Fits(p, o, re) && NoBackref(re) && Starts(re, o) <= S && o + Len(re) in S && LoopsConsume(re)
      && b + PerChar(re) <= a + per && After(p, S, text, o + Len(re), t, per, a, b, Nullable(re))
    ensures EnoughAt(p, S, text, o, t, per, a + Forks(Star(x)))
    decreases Star(x), 0, 0
  {
    hide *;
    StarParts(x, o);
    StarLayout(p, o, x);
    LoopEnough(p, S, o, x, text, t, per, a, b);
  }

  lemma StarParts(b: Re, o: nat)
    ensures var re := Star(b);
      && Starts(re, o) == {o, o + 3 + Len(b)} + Starts(b, o + 3) && Len(re) == 6 + Len(b)
        && NoBackref(re) == NoBackref(b)
      && LoopsConsume(re) == (LoopsConsume(b) && !Nullable(b)) && Nullable(re)
      && Forks(re) == 1 + Forks(b) && PerChar(re) == 1 + Forks(b) + PerChar(b)
  {
  }

  lemma {:induction false} PlusEnough(p: Program, S: set<int>, o: nat, x: Re, text: seq<byte>, t: nat, per: nat,
          a: nat, b: nat)
    requires var re := Plus(x);
      && Sound(p, S) && Fits(p, o, re) && NoBackref(re) && Starts(re, o) <= S && o + Len(re) in S && LoopsConsume(re)
      && b + PerChar(re) <= a + per && After(p, S, text, o + Len(re), t, per, a, b, Nullable(re))
    ensures EnoughAt(p, S, text, o, t, per, a + Forks(Plus(x)))
    decreases Plus(x), 0, 0
  {
    hide *;
    PlusParts(x, o);
    PlusLayout(p, o, x);
    NodeInside(p, o + 6, x, S);
    var s, z, b' := o + 6 + Len(x), o + 9 + Len(x), b + 1 + Forks(x);
    AfterIs(p, S, text, z, t, per, a, b, Nullable(Plus(x)));
    RoundEnough(p, S, o + 3, x, text, t, per, a, b);
    AfterIs(p, S, text, s, t, per, a, b', false);
    NodeEnough(p, S, o + 6, x, text, t, per, a, b');
    Forked(p, S, text, o, t, per, a + Forks(x));
  }

  lemma PlusParts(b: Re, o: nat)
    ensures var re := Plus(b);
      && Starts(re, o) == {o, o + 3, o + 6 + Len(b)} + Starts(b, o + 6) && Len(re) == 9 + Len(b)
        && NoBackref(re) == NoBackref(b)
      && LoopsConsume(re) == (LoopsConsume(b) && !Nullable(b)) && Nullable(re) == Nullable(b)
      && Forks(re) == 1 + Forks(b) && PerChar(re) == 1 + Forks(b) + PerChar(b)
  {
  }

  lemma {:induction false} GroupEnough(p: Program, S: set<int>, o: nat, g: byte, x: Re, text: seq<byte>, t: nat,
          per: nat, a: nat, b: nat)
    requires var re := Group(g, x);
      && Sound(p, S) && Fits(p, o, re) && NoBackref(re) && Starts(re, o) <= S && o + Len(re) in S && LoopsConsume(re)
      && b + PerChar(re) <= a + per && After(p, S, text, o + Len(re), t, per, a, b, Nullable(re))
    ensures EnoughAt(p, S, text, o, t, per, a + Forks(Group(g, x)))
    decreases Group(g, x), 0, 0
  {
    hide *;
    GroupParts(g, x, o);
    GroupLayout(p, o, g, x);
    if g == 0 {
      NodeEnough(p, S, o, x, text, t, per, a, b);
    } else {
      var z, y := o + 2 + Len(x), o + Len(Group(g, x));
      NodeInside(p, o + 2, x, S);
      AfterIs(p, S, text, y, t, per, a, b, Nullable(x));
      if Nullable(x) { Through(p, S, text, z, t, per, a); }
      forall u: nat | t < u <= |text| ensures EnoughAt(p, S, text, z, u, per, b) { Through(p, S, text, z, u, per, b); }
      AfterIs(p, S, text, z, t, per, a, b, Nullable(x));
      NodeEnough(p, S, o + 2, x, text, t, per, a, b);
      Through(p, S, text, o, t, per, a + Forks(x));
    }
  }

  lemma GroupParts(g: byte, b: Re, o: nat)
    ensures var re := Group(g, b);
      && Starts(re, o) == (if g == 0 then Starts(b, o) else {o, o + 2 + Len(b)} + Starts(b, o + 2))
      && Len(re) == (if g == 0 then Len(b) else 4 + Len(b)) && NoBackref(re) == NoBackref(b)
      && LoopsConsume(re) == LoopsConsume(b) && Nullable(re) == Nullable(b) && Forks(re) == Forks(b)
        && PerChar(re) == PerChar(b)
  {
  }

  /** Backtracking has room enough for a pattern whose loops consume, on a text that is short enough. */
  lemma ShortEnough(p: Program, re: Re, text: seq<byte>, pos: nat)
    requires Compiled(p, re) && NoBackref(re) && pos <= |text| && LoopsConsume(re)
    requires Forks(re) + PerChar(re) * (|text| - pos) <= MAX_FAILURES
    ensures MatchRoom(p, re, text, pos) && !PlainMatch(p, re, text, pos).Overflow?
  {
    hide *;
    CompiledParts(p, re);
    CompiledSound(p, re);
    var S, z, per := AllStarts(re), Len(re), PerChar(re);
    forall u: nat | u <= |text| ensures EnoughAt(p, S, text, z, u, per, 0) {
      EnoughStep(p, S, text, z, u, Need(0, per, |text| - u));
      EnoughIs(p, S, text, z, u, per, 0);
    }
    AfterIs(p, S, text, 0 + Len(re), pos, per, 0, 0, Nullable(re));
    NodeEnough(p, S, 0, re, text, pos, per, 0, 0);
    var k := Need(Forks(re), per, |text| - pos);
    NeedIs(Forks(re), per, |text| - pos);
    EnoughIs(p, S, text, 0, pos, per, Forks(re));
    EnoughMore(p, S, text, 0, pos, k, MAX_FAILURES);
    PlainIs(p, re, text, pos);
  }

  lemma NeedIs(a: nat, per: nat, rem: nat)
    ensures Need(a, per, rem) == a + per * rem
  {
  }

  lemma PlainIs(p: Program, re: Re, text: seq<byte>, pos: nat)
    requires Compiled(p, re) && NoBackref(re) && pos <= |text|
    ensures Sound(p, AllStarts(re)) && 0 in AllStarts(re)
    ensures PlainMatch(p, re, text, pos) == Backtrack(p, AllStarts(re), text, 0, pos, MAX_FAILURES)
    ensures Enough(p, AllStarts(re), text, 0, pos, MAX_FAILURES) ==>
      MatchRoom(p, re, text, pos) && !PlainMatch(p, re, text, pos).Overflow?
  {
    hide Compiled, NoBackref, Sound, AllStarts, Backtrack, RoomFor;
    CompiledSound(p, re);
    if Enough(p, AllStarts(re), text, 0, pos, MAX_FAILURES) {
      RoomSuffices(p, AllStarts(re), text, 0, pos, MAX_FAILURES);
    }
  }

  // ----- loops without end -----

  /** re matches the empty string wherever it stands, whatever is around. */
  predicate Empties(re: Re) {
    match re
    case Eps => true
    case Seq(l, r) => Empties(l) && Empties(r)
    case Alt(l, r) => Empties(l) || Empties(r)
    case Opt(_) => true
    case Star(_) => true
    case Plus(b) => Empties(b)
    case Group(_, b) => Empties(b)
    case _ => false
  }

  /** Backtracking from pc does not come to the end of the pattern. */
  ghost predicate Lost(p: Program, S: set<int>, text: seq<byte>, pc: int, t: nat, room: nat)
    requires Sound(p, S)
  {
    pc in S && t <= |text| && !Backtrack(p, S, text, pc, t, room).Found?
  }

  /** Backtracking from pc runs out of room. */
  ghost predicate Full(p: Program, S: set<int>, text: seq<byte>, pc: int, t: nat, room: nat)
    requires Sound(p, S)
  {
    pc in S && t <= |text| && Backtrack(p, S, text, pc, t, room).Overflow?
  }

  ghost predicate LostFrom(p: Program, S: set<int>, text: seq<byte>, pc: int, t: nat, room: nat)
    requires Sound(p, S)
  {
    forall u: nat, r: nat :: t <= u <= |text| && r <= room ==> Lost(p, S, text, pc, u, r)
  }

  ghost predicate FullFrom(p: Program, S: set<int>, text: seq<byte>, pc: int, t: nat, room: nat)
    requires Sound(p, S)
  {
    forall u: nat, r: nat :: t <= u <= |text| && r <= room ==> Full(p, S, text, pc, u, r)
  }

  lemma FullIs(p: Program, S: set<int>, text: seq<byte>, pc: int, t: nat, room: nat)
    requires Sound(p, S)
    ensures FullFrom(p, S, text, pc, t, room) <==>
      forall u: nat, r: nat :: t <= u <= |text| && r <= room ==> Full(p, S, text, pc, u, r)
    ensures FullFrom(p, S, text, pc, t, room) ==> LostFrom(p, S, text, pc, t, room)
  {
    hide Sound;
    if FullFrom(p, S, text, pc, t, room) {
      forall u: nat, r: nat | t <= u <= |text| && r <= room ensures Lost(p, S, text, pc, u, r) {
        assert Full(p, S, text, pc, u, r);
      }
    }
  }

  /** One step. */
  lemma LostStep(p: Program, S: set<int>, text: seq<byte>, pc: int, t: nat, room: nat)
    requires Sound(p, S) && pc in S && t <= |text|
    ensures 0 <= pc < |p|
    ensures !p[pc].End? && !p[pc].Fork? && !p[pc].Dummy? && !p[pc].Passes(text, t) ==> Lost(p, S, text, pc, t, room)
    ensures !p[pc].End? && !p[pc].Fork? && !p[pc].Dummy? && p[pc].Passes(text, t) ==>
      && (Lost(p, S, text, p[pc].next, t + p[pc].Width(), room) ==> Lost(p, S, text, pc, t, room))
      && (Full(p, S, text, p[pc].next, t + p[pc].Width(), room) ==> Full(p, S, text, pc, t, room))
    ensures (p[pc].Fork? || p[pc].Dummy?) && room == 0 ==>
      Lost(p, S, text, pc, t, room) && Full(p, S, text, pc, t, room)
    ensures (p[pc].Fork? || p[pc].Dummy?) && room > 0 ==>
      && (Full(p, S, text, p[pc].next, t, room - 1) ==> Full(p, S, text, pc, t, room))
      && (Lost(p, S, text, p[pc].next, t, room - 1) && (p[pc].Fork? ==> Lost(p, S, text, p[pc].alt, t, room)) ==>
        Lost(p, S, text, pc, t, room))
    ensures p[pc].Fork? && room > 0 ==>
      (Lost(p, S, text, p[pc].next, t, room - 1) && Full(p, S, text, p[pc].alt, t, room) ==>
         Full(p, S, text, pc, t, room))
  {
    hide Sound;
    RankFalls(p, S, pc);
  }

  /** An instruction that only leads on. */
  lemma LostThrough(p: Program, S: set<int>, text: seq<byte>, pc: int, t: nat, room: nat)
    requires Sound(p, S) && pc in S && 0 <= pc < |p| && (p[pc].Jump? || p[pc].StarJump? || p[pc].Mem?)
    ensures LostFrom(p, S, text, p[pc].next, t, room) ==> LostFrom(p, S, text, pc, t, room)
    ensures FullFrom(p, S, text, p[pc].next, t, room) ==> FullFrom(p, S, text, pc, t, room)
  {
    hide Sound, Lost, Full;
    forall u: nat, r: nat | t <= u <= |text| && r <= room
      ensures Lost(p, S, text, p[pc].next, u, r) ==> Lost(p, S, text, pc, u, r)
      ensures Full(p, S, text, p[pc].next, u, r) ==> Full(p, S, text, pc, u, r)
    {
      LostStep(p, S, text, pc, u, r);
    }
  }

  /** Nothing is found through the code of re when nothing is found behind it. */
  lemma {:induction false} NodeLost(p: Program, S: set<int>, o: nat, re: Re, text: seq<byte>, t: nat, room: nat)
    requires Sound(p, S) && Fits(p, o, re) && NoBackref(re) && Starts(re, o) <= S && o + Len(re) in S
    requires LostFrom(p, S, text, o + Len(re), t, room)
    ensures LostFrom(p, S, text, o, t, room)
    decreases re, 1, room
  {
    hide *;
    match re
    case Seq(l, r) =>
      SeqParts(l, r, o);
      SeqLayout(p, o, l, r);
      NodeInside(p, o + Len(l), r, S);
      NodeLost(p, S, o + Len(l), r, text, t, room);
      NodeLost(p, S, o, l, text, t, room);
    case Alt(l, r) => AltLost(p, S, o, l, r, text, t, room);
    case Opt(x) => OptLost(p, S, o, x, text, t, room);
    case Star(x) =>
      StarParts(x, o);
      StarLayout(p, o, x);
      LoopLost(p, S, o, x, text, t, room);
    case Plus(x) => PlusLost(p, S, o, x, text, t, room);
    case Group(g, x) =>
      GroupParts(g, x, o);
      GroupLayout(p, o, g, x);
      if g == 0 {
        NodeLost(p, S, o, x, text, t, room);
      } else {
        LostThrough(p, S, text, o + 2 + Len(x), t, room);
        NodeLost(p, S, o + 2, x, text, t, room);
        LostThrough(p, S, text, o, t, room);
      }
    case _ => LeafLost(p, S, o, re, text, t, room);
  }

  lemma LeafLost(p: Program, S: set<int>, o: nat, re: Re, text: seq<byte>, t: nat, room: nat)
    requires re.Eps? || re.Atom? || re.Assert? || re.Backref?
    requires Sound(p, S) && Fits(p, o, re) && NoBackref(re) && Starts(re, o) <= S && o + Len(re) in S
    requires LostFrom(p, S, text, o + Len(re), t, room)
    ensures LostFrom(p, S, text, o, t, room)
  {
    hide Sound, Lost;
    if !re.Eps? {
      forall u: nat, r: nat | t <= u <= |text| && r <= room
        ensures Lost(p, S, text, o, u, r) { LostStep(p, S, text, o, u, r); }
    }
  }

  lemma {:induction false} AltLost(p: Program, S: set<int>, o: nat, l: Re, r: Re, text: seq<byte>, t: nat, room: nat)
    requires var re := Alt(l, r);
      Sound(p, S) && Fits(p, o, re) && NoBackref(re) && Starts(re, o) <= S && o + Len(re) in S
    requires LostFrom(p, S, text, o + Len(Alt(l, r)), t, room)
    ensures LostFrom(p, S, text, o, t, room) && LostFrom(p, S, text, o + 3, t, room)
    decreases Alt(l, r), 0, room
  {
    hide *;
    AltParts(l, r, o);
    AltLayout(p, o, l, r);
    LostThrough(p, S, text, o + 3 + Len(l), t, room);
    NodeLost(p, S, o + 3, l, text, t, room);
    NodeLost(p, S, o + 6 + Len(l), r, text, t, room);
    LostLess(p, S, text, o + 3, t, room);
    ForkLost(p, S, text, o, t, room);
  }

  /** A failure jump both ways of which are lost. */
  lemma ForkLost(p: Program, S: set<int>, text: seq<byte>, pc: int, t: nat, room: nat)
    requires Sound(p, S) && pc in S && 0 <= pc < |p| && (p[pc].Fork? || p[pc].Dummy?)
    requires room > 0 ==> LostFrom(p, S, text, p[pc].next, t, room - 1)
    requires p[pc].Fork? ==> LostFrom(p, S, text, p[pc].alt, t, room)
    ensures LostFrom(p, S, text, pc, t, room)
  {
    hide Sound, Lost;
    forall u: nat, r: nat | t <= u <= |text| && r <= room
      ensures Lost(p, S, text, pc, u, r) { LostStep(p, S, text, pc, u, r); }
  }

  lemma {:induction false} OptLost(p: Program, S: set<int>, o: nat, x: Re, text: seq<byte>, t: nat, room: nat)
    requires var re := Opt(x); Sound(p, S) && Fits(p, o, re) && NoBackref(re) && Starts(re, o) <= S && o + Len(re) in S
    requires LostFrom(p, S, text, o + Len(Opt(x)), t, room)
    ensures LostFrom(p, S, text, o, t, room) && LostFrom(p, S, text, o + 3, t, room)
    decreases Opt(x), 0, room
  {
    hide *;
    OptParts(x, o);
    OptLayout(p, o, x);
    NodeLost(p, S, o + 3, x, text, t, room);
    LostLess(p, S, text, o + 3, t, room);
    ForkLost(p, S, text, o, t, room);
  }

  lemma LostLess(p: Program, S: set<int>, text: seq<byte>, pc: int, t: nat, room: nat)
    requires Sound(p, S)
    ensures room > 0 && LostFrom(p, S, text, pc, t, room) ==> LostFrom(p, S, text, pc, t, room - 1)
    ensures room > 0 && FullFrom(p, S, text, pc, t, room) ==> FullFrom(p, S, text, pc, t, room - 1)
  {
    hide Sound, Lost, Full;
  }

  lemma {:induction false} LoopLost(p: Program, S: set<int>, o: nat, x: Re, text: seq<byte>, t: nat, room: nat)
    requires Sound(p, S) && LoopFits(p, o, x) && NoBackref(x) && Starts(x, o + 3) <= S
      && {o, o + 3 + Len(x), o + 6 + Len(x)} <= S
    requires LostFrom(p, S, text, o + 6 + Len(x), t, room)
    ensures LostFrom(p, S, text, o, t, room)
    decreases x, 2, room
  {
    hide *;
    LoopLayout(p, o, x);
    if room > 0 {
      LostLess(p, S, text, o + 6 + Len(x), t, room);
      LoopLost(p, S, o, x, text, t, room - 1);
      LostThrough(p, S, text, o + 3 + Len(x), t, room - 1);
      NodeLost(p, S, o + 3, x, text, t, room - 1);
    }
    ForkLost(p, S, text, o, t, room);
  }

  lemma {:induction false} PlusLost(p: Program, S: set<int>, o: nat, x: Re, text: seq<byte>, t: nat, room: nat)
    requires var re := Plus(x); Sound(p, S) && Fits(p, o, re) && NoBackref(re) && Starts(re, o) <= S && o + Len(re) in S
    requires LostFrom(p, S, text, o + Len(Plus(x)), t, room)
    ensures LostFrom(p, S, text, o, t, room)
    decreases Plus(x), 0, room
  {
    hide *;
    PlusParts(x, o);
    PlusLayout(p, o, x);
    if room > 0 {
      LostLess(p, S, text, o + 9 + Len(x), t, room);
      LoopLost(p, S, o + 3, x, text, t, room - 1);
      LostThrough(p, S, text, o + 6 + Len(x), t, room - 1);
      NodeLost(p, S, o + 6, x, text, t, room - 1);
    }
    ForkLost(p, S, text, o, t, room);
  }

  /** Code that can be passed without consuming runs out of room when what lies behind it does. */
  lemma {:induction false} NodeFull(p: Program, S: set<int>, o: nat, re: Re, text: seq<byte>, t: nat, room: nat)
    requires Sound(p, S) && Fits(p, o, re) && NoBackref(re) && Starts(re, o) <= S && o + Len(re) in S && Empties(re)
    requires FullFrom(p, S, text, o + Len(re), t, room)
    ensures FullFrom(p, S, text, o, t, room)
    decreases re, 1, room
  {
    hide *;
    EmptiesIs(re);
    FullIs(p, S, text, o + Len(re), t, room);
    match re
    case Eps => LenEps();
    case Seq(l, r) =>
      SeqParts(l, r, o);
      SeqLayout(p, o, l, r);
      NodeInside(p, o + Len(l), r, S);
      NodeFull(p, S, o + Len(l), r, text, t, room);
      NodeFull(p, S, o, l, text, t, room);
    case Alt(l, r) => AltFull(p, S, o, l, r, text, t, room);
    case Opt(x) => OptFull(p, S, o, x, text, t, room);
    case Star(x) => StarFull(p, S, o, x, text, t, room);
    case Plus(x) => PlusFull(p, S, o, x, text, t, room);
    case Group(g, x) =>
      GroupParts(g, x, o);
      GroupLayout(p, o, g, x);
      if g == 0 {
        NodeFull(p, S, o, x, text, t, room);
      } else {
        LostThrough(p, S, text, o + 2 + Len(x), t, room);
        NodeFull(p, S, o + 2, x, text, t, room);
        LostThrough(p, S, text, o, t, room);
      }
  }

  lemma {:induction false} AltFull(p: Program, S: set<int>, o: nat, l: Re, r: Re, text: seq<byte>, t: nat, room: nat)
    requires var re := Alt(l, r);
      Sound(p, S) && Fits(p, o, re) && NoBackref(re) && Starts(re, o) <= S && o + Len(re) in S && Empties(re)
    requires FullFrom(p, S, text, o + Len(Alt(l, r)), t, room)
    ensures FullFrom(p, S, text, o, t, room)
    decreases Alt(l, r), 0, room
  {
    hide *;
    EmptiesIs(Alt(l, r));
    FullIs(p, S, text, o + Len(Alt(l, r)), t, room);
    AltParts(l, r, o);
    AltLayout(p, o, l, r);
    LostThrough(p, S, text, o + 3 + Len(l), t, room);
    AltLost(p, S, o, l, r, text, t, room);
    if Empties(l) {
      NodeFull(p, S, o + 3, l, text, t, room);
    } else {
      NodeFull(p, S, o + 6 + Len(l), r, text, t, room);
    }
    LostLess(p, S, text, o + 3, t, room);
    ForkFull(p, S, text, o, t, room);
  }

  lemma {:induction false} OptFull(p: Program, S: set<int>, o: nat, x: Re, text: seq<byte>, t: nat, room: nat)
    requires var re := Opt(x);
      Sound(p, S) && Fits(p, o, re) && NoBackref(re) && Starts(re, o) <= S && o + Len(re) in S
    requires FullFrom(p, S, text, o + Len(Opt(x)), t, room)
    ensures FullFrom(p, S, text, o, t, room)
    decreases Opt(x), 0, room
  {
    hide *;
    FullIs(p, S, text, o + Len(Opt(x)), t, room);
    OptParts(x, o);
    OptLayout(p, o, x);
    OptLost(p, S, o, x, text, t, room);
    LostLess(p, S, text, o + 3, t, room);
    ForkFull(p, S, text, o, t, room);
  }

  lemma {:induction false} PlusFull(p: Program, S: set<int>, o: nat, x: Re, text: seq<byte>, t: nat, room: nat)
    requires var re := Plus(x);
      Sound(p, S) && Fits(p, o, re) && NoBackref(re) && Starts(re, o) <= S && o + Len(re) in S && Empties(re)
    ensures FullFrom(p, S, text, o, t, room)
    decreases Plus(x), 0, room
  {
    hide *;
    EmptiesIs(Plus(x));
    PlusParts(x, o);
    PlusLayout(p, o, x);
    EmptyLoop(p, S, o + 3, x, text, t, room);
    LostThrough(p, S, text, o + 6 + Len(x), t, room);
    NodeFull(p, S, o + 6, x, text, t, room);
    LostLess(p, S, text, o + 6, t, room);
    ForkFull(p, S, text, o, t, room);
  }

  lemma LenEps()
    ensures Len(Eps) == 0
  {
  }

  lemma EmptiesIs(re: Re)
    ensures Empties(re) ==> !re.Atom? && !re.Assert? && !re.Backref?
    ensures re.Seq? ==> Empties(re) == (Empties(re.left) && Empties(re.right))
    ensures re.Alt? ==> Empties(re) == (Empties(re.left) || Empties(re.right))
    ensures re.Plus? || re.Group? ==> Empties(re) == Empties(re.body)
  {
  }

  /** A failure jump with a full way, and none that finds anything. */
  lemma ForkFull(p: Program, S: set<int>, text: seq<byte>, pc: int, t: nat, room: nat)
    requires Sound(p, S) && pc in S && 0 <= pc < |p| && (p[pc].Fork? || p[pc].Dummy?)
    requires room > 0 ==>
      || FullFrom(p, S, text, p[pc].next, t, room - 1)
      || (p[pc].Fork? && LostFrom(p, S, text, p[pc].next, t, room - 1) && FullFrom(p, S, text, p[pc].alt, t, room))
    ensures FullFrom(p, S, text, pc, t, room)
  {
    hide Sound, Lost, Full;
    forall u: nat, r: nat | t <= u <= |text| && r <= room
      ensures Full(p, S, text, pc, u, r) { LostStep(p, S, text, pc, u, r); }
  }

  lemma {:induction false} StarFull(p: Program, S: set<int>, o: nat, x: Re, text: seq<byte>, t: nat, room: nat)
    requires var re := Star(x); Sound(p, S) && Fits(p, o, re) && NoBackref(re) && Starts(re, o) <= S && o + Len(re) in S
    requires FullFrom(p, S, text, o + Len(Star(x)), t, room)
    ensures FullFrom(p, S, text, o, t, room)
    decreases Star(x), 0, room
  {
    hide *;
    StarParts(x, o);
    StarLayout(p, o, x);
    LoopLayout(p, o, x);
    FullIs(p, S, text, o + Len(Star(x)), t, room);
    if room > 0 {
      LostLess(p, S, text, o + 6 + Len(x), t, room);
      LoopLost(p, S, o, x, text, t, room - 1);
      LostThrough(p, S, text, o + 3 + Len(x), t, room - 1);
      NodeLost(p, S, o + 3, x, text, t, room - 1);
    }
    ForkFull(p, S, text, o, t, room);
  }

  /** A loop whose body matches the empty string takes all the room there is, on every text. */
  lemma {:induction false} EmptyLoop(p: Program, S: set<int>, o: nat, x: Re, text: seq<byte>, t: nat, room: nat)
    requires Sound(p, S) && LoopFits(p, o, x) && NoBackref(x) && Starts(x, o + 3) <= S
      && {o, o + 3 + Len(x), o + 6 + Len(x)} <= S
    requires Empties(x)
    ensures FullFrom(p, S, text, o, t, room)
    decreases x, 2, room
  {
    hide *;
    LoopLayout(p, o, x);
    if room > 0 {
      EmptyLoop(p, S, o, x, text, t, room - 1);
      LostThrough(p, S, text, o + 3 + Len(x), t, room - 1);
      NodeFull(p, S, o + 3, x, text, t, room - 1);
    }
    ForkFull(p, S, text, o, t, room);
  }

  // ----- what the matcher answers -----

  /** re has no loops. */
  predicate LoopFree(re: Re) {
    match re
    case Seq(l, r) => LoopFree(l) && LoopFree(r)
    case Alt(l, r) => LoopFree(l) && LoopFree(r)
    case Opt(b) => LoopFree(b)
    case Star(_) => false
    case Plus(_) => false
    case Group(_, b) => LoopFree(b)
    case _ => true
  }

  /** The matcher never answers -2 for a pattern whose loops consume, on a text that is short enough,
      whatever it rewrites. */
  lemma NoOverflow(p: Program, re: Re, text: seq<byte>, pos: nat, o: Outcome)
    requires Compiled(p, re) && NoBackref(re) && pos <= |text| && LoopsConsume(re)
    requires Forks(re) + PerChar(re) * (|text| - pos) <= MAX_FAILURES
    requires RightAnswer(p, re, text, pos, o)
    ensures !o.Overflow?
  {
    hide Compiled, NoBackref, LoopsConsume, Forks, PerChar, Harmless, PlainMatch, NeverUpdates, AllStarts, Matches,
      MatchRoom;
    ShortEnough(p, re, text, pos);
  }

  /** So no run of it ends in -2, however star jumps are rewritten on the way. */
  lemma NoRunOverflows(p: Program, re: Re, text: seq<byte>, pos: nat, qs: seq<Program>, cs: seq<Config>)
    requires Compiled(p, re) && NoBackref(re) && pos <= |text| && LoopsConsume(re)
    requires Forks(re) + PerChar(re) * (|text| - pos) <= MAX_FAILURES
    requires IsRun(p, AllStarts(re), text, pos, qs, cs)
    ensures forall k :: 0 <= k < |cs| ==> |qs[k]| == |p| && Step(qs[k], text, cs[k]) != Stop(Overflow)
  {
    hide *;
    RunShape(p, AllStarts(re), text, pos, qs, cs);
    forall k | 0 <= k < |cs| ensures |qs[k]| == |p| && Step(qs[k], text, cs[k]) != Stop(Overflow) {
      RunPrefix(p, AllStarts(re), text, pos, qs, cs, k);
      EveryRun(p, re, text, pos, qs[..k + 1], cs[..k + 1]);
      if Step(qs[k], text, cs[k]) == Stop(Overflow) {
        NoOverflow(p, re, text, pos, Overflow);
        assert false;
      }
    }
  }

  lemma RunShape(p: Program, S: set<int>, text: seq<byte>, pos: nat, qs: seq<Program>, cs: seq<Config>)
    requires pos <= |text| && IsRun(p, S, text, pos, qs, cs)
    ensures |qs| == |cs| && forall k :: 0 <= k < |cs| ==> |qs[k]| == |p| && cs[k].t <= |text| && 0 <= cs[k].pc < |p|
  {
    hide Step, SameOrRewritten;
  }

  lemma RunPrefix(p: Program, S: set<int>, text: seq<byte>, pos: nat, qs: seq<Program>, cs: seq<Config>, k: nat)
    requires pos <= |text| && IsRun(p, S, text, pos, qs, cs) && k < |cs|
    ensures |qs| == |cs| && IsRun(p, S, text, pos, qs[..k + 1], cs[..k + 1])
  {
    hide Step, Rewritten;
  }

  ghost predicate StarsNone(p: Program, pcs: set<int>) {
    forall pc :: pc in pcs ==> 0 <= pc < |p| && !p[pc].StarJump?
  }

  lemma NoneIn(p: Program, own: set<int>, a: set<int>, b: set<int>, all: set<int>)
    requires StarsNone(p, a) && StarsNone(p, b) && all == own + a + b
    requires forall pc :: pc in own ==> 0 <= pc < |p| && !p[pc].StarJump?
    ensures StarsNone(p, all)
  {
  }

  lemma {:induction false} NoStars(p: Program, o: nat, re: Re)
    requires Fits(p, o, re) && LoopFree(re)
    ensures StarsNone(p, Starts(re, o))
    decreases re
  {
    hide *;
    FreeIs(re);
    match re
    case Seq(l, r) =>
      SeqParts(l, r, o);
      SeqLayout(p, o, l, r);
      NoStars(p, o, l);
      NoStars(p, o + Len(l), r);
      NoneIn(p, {}, Starts(l, o), Starts(r, o + Len(l)), Starts(re, o));
    case Alt(l, r) =>
      AltParts(l, r, o);
      AltLayout(p, o, l, r);
      NoStars(p, o + 3, l);
      NoStars(p, o + 6 + Len(l), r);
      NoneIn(p, {o, o + 3 + Len(l)}, Starts(l, o + 3), Starts(r, o + 6 + Len(l)), Starts(re, o));
    case Opt(b) =>
      OptParts(b, o);
      OptLayout(p, o, b);
      NoStars(p, o + 3, b);
      NoneIn(p, {o}, Starts(b, o + 3), Starts(b, o + 3), Starts(re, o));
    case Group(g, b) =>
      GroupParts(g, b, o);
      GroupLayout(p, o, g, b);
      var x := if g == 0 then o else o + 2;
      NoStars(p, x, b);
      NoneIn(p, if g == 0 then {} else {o, o + 2 + Len(b)}, Starts(b, x), Starts(b, x), Starts(re, o));
    case _ => LeafStars(p, o, re);
  }

  lemma FreeIs(re: Re)
    requires LoopFree(re)
    ensures !re.Star? && !re.Plus?
    ensures re.Seq? || re.Alt? ==> LoopFree(re.left) && LoopFree(re.right)
    ensures re.Opt? || re.Group? ==> LoopFree(re.body)
  {
  }

  lemma LeafStars(p: Program, o: nat, re: Re)
    requires re.Eps? || re.Atom? || re.Assert? || re.Backref?
    requires Fits(p, o, re)
    ensures StarsNone(p, Starts(re, o))
  {
  }

  /** Nothing on the straight way through re consumes. */
  lemma {:induction false} NoEater(p: Program, o: nat, re: Re)
    requires Fits(p, o, re) && Empties(re) && EaterAt(p, o + Len(re)) == -1
    ensures EaterAt(p, o) == -1
    decreases re
  {
    hide *;
    EmptiesIs(re);
    match re
    case Eps => LenEps();
    case Seq(l, r) =>
      SeqLayout(p, o, l, r);
      NoEater(p, o + Len(l), r);
      NoEater(p, o, l);
    case Alt(l, r) => AltLayout(p, o, l, r); EaterIs(p, o);
    case Opt(b) => OptLayout(p, o, b); EaterIs(p, o);
    case Star(b) => StarLayout(p, o, b); LoopLayout(p, o, b); EaterIs(p, o);
    case Plus(b) => PlusLayout(p, o, b); EaterIs(p, o);
    case Group(g, b) =>
      GroupLayout(p, o, g, b);
      if g == 0 {
        NoEater(p, o, b);
      } else {
        EaterIs(p, o + 2 + Len(b));
        NoEater(p, o + 2, b);
        EaterIs(p, o);
      }
  }

  lemma EaterIs(p: Program, x: int)
    ensures 0 <= x < |p| && (p[x].Fork? || p[x].Dummy? || p[x].StarJump?) ==> EaterAt(p, x) == -1
    ensures 0 <= x < |p| && p[x].Mem? && EaterAt(p, p[x].next) == -1 ==> EaterAt(p, x) == -1
  {
  }

  /** The only star jump of the loop closes no simple loop, so nothing is ever updated. */
  lemma StarNeverUpdates(p: Program, b: Re)
    requires Compiled(p, Star(b)) && LoopFree(b) && Empties(b)
    ensures NeverUpdates(p, AllStarts(Star(b)))
  {
    hide *;
    CompiledParts(p, Star(b));
    StarParts(b, 0);
    StarLayout(p, 0, b);
    LoopLayout(p, 0, b);
    NoStars(p, 3, b);
    EaterIs(p, 3 + Len(b));
    NoEater(p, 3, b);
    OneStar(p, Starts(b, 3), 3 + Len(b), AllStarts(Star(b)));
    forall s, cl ensures !Updatable(p, AllStarts(Star(b)), s, cl) {
      NotSimple(p, AllStarts(Star(b)), s, cl);
    }
    NeverIs(p, AllStarts(Star(b)));
  }

  lemma OneStar(p: Program, pcs: set<int>, s: int, all: set<int>)
    requires StarsNone(p, pcs) && 0 < |p| && !p[0].StarJump? && 0 <= s < |p| && p[s].StarJump? && 0 <= s + 3 < |p|
      && !p[s + 3].StarJump?
    requires all == {0, s} + pcs + {s + 3}
    ensures forall x :: x in all && 0 <= x < |p| && p[x].StarJump? ==> x == s
  {
  }

  lemma NotSimple(p: Program, S: set<int>, s: int, cl: CharClass)
    requires s in S && 0 <= s < |p| && p[s].StarJump? ==> EaterAt(p, p[s].next + 3) == -1
    ensures !Updatable(p, S, s, cl)
  {
    hide EaterAt, Harmless, Forgettable;
  }

  lemma NeverIs(p: Program, S: set<int>)
    ensures NeverUpdates(p, S) <==> forall s, cl :: !Updatable(p, S, s, cl)
  {
    hide Updatable;
  }

  /** A star over a body without loops that matches the empty string: the matcher answers -2 to every
      text, at every position. */
  lemma EmptyStar(p: Program, b: Re, text: seq<byte>, pos: nat, o: Outcome)
    requires Compiled(p, Star(b)) && NoBackref(Star(b)) && pos <= |text| && Empties(b) && LoopFree(b)
    requires RightAnswer(p, Star(b), text, pos, o)
    ensures o.Overflow?
  {
    hide *;
    var re := Star(b);
    StarNeverUpdates(p, b);
    CompiledParts(p, re);
    CompiledSound(p, re);
    StarParts(b, 0);
    StarLayout(p, 0, b);
    EmptyLoop(p, AllStarts(re), 0, b, text, pos, MAX_FAILURES);
    FullIs(p, AllStarts(re), text, 0, pos, MAX_FAILURES);
    assert Full(p, AllStarts(re), text, 0, pos, MAX_FAILURES);
    FullPlain(p, re, text, pos);
    PlainAnswer(p, re, text, pos, o);
  }

  lemma FullPlain(p: Program, re: Re, text: seq<byte>, pos: nat)
    requires Compiled(p, re) && NoBackref(re) && pos <= |text| && Sound(p, AllStarts(re))
      && Full(p, AllStarts(re), text, 0, pos, MAX_FAILURES)
    ensures PlainMatch(p, re, text, pos).Overflow?
  {
    hide Compiled, NoBackref, Sound, AllStarts, Backtrack;
  }

  lemma PlainAnswer(p: Program, re: Re, text: seq<byte>, pos: nat, o: Outcome)
    requires Compiled(p, re) && NoBackref(re) && pos <= |text| && RightAnswer(p, re, text, pos, o)
    requires NeverUpdates(p, AllStarts(re))
    ensures o == PlainMatch(p, re, text, pos)
  {
    hide Compiled, NoBackref, NeverUpdates, AllStarts, PlainMatch, Matches, Harmless;
  }

  /** Without zero-width operators, to match the empty string somewhere is to match it everywhere. */
  lemma {:induction false} EmptyEverywhere(re: Re)
    requires TestFree(re) && NoBackref(re)
    ensures Empties(re) == Nullable(re)
  {
    match re
    case Seq(l, r) => EmptyEverywhere(l); EmptyEverywhere(r);
    case Alt(l, r) => EmptyEverywhere(l); EmptyEverywhere(r);
    case Opt(b) => EmptyEverywhere(b);
    case Star(b) => EmptyEverywhere(b);
    case Plus(b) => EmptyEverywhere(b);
    case Group(_, b) => EmptyEverywhere(b);
    case _ =>
  }

  predicate TestFree(re: Re) {
    match re
    case Assert(_) => false
    case Seq(l, r) => TestFree(l) && TestFree(r)
    case Alt(l, r) => TestFree(l) && TestFree(r)
    case Opt(b) => TestFree(b)
    case Star(b) => TestFree(b)
    case Plus(b) => TestFree(b)
    case Group(_, b) => TestFree(b)
    case _ => true
  }

  /** A star over a body without loops and zero-width operators: on a text that is not too long the
      matcher answers -2 exactly when the body matches the empty string. */
  lemma StarOverflows(p: Program, b: Re, text: seq<byte>, pos: nat, o: Outcome)
    requires Compiled(p, Star(b)) && NoBackref(Star(b)) && pos <= |text| && LoopFree(b) && TestFree(b)
    requires Forks(Star(b)) + PerChar(Star(b)) * (|text| - pos) <= MAX_FAILURES
    requires RightAnswer(p, Star(b), text, pos, o)
    ensures o.Overflow? <==> Nullable(b)
  {
    hide *;
    StarParts(b, 0);
    EmptyEverywhere(b);
    if Nullable(b) {
      EmptyStar(p, b, text, pos, o);
    } else {
      FreeConsumes(b);
      NoOverflow(p, Star(b), text, pos, o);
    }
  }

  lemma {:induction false} FreeConsumes(re: Re)
    requires LoopFree(re)
    ensures LoopsConsume(re)
  {
    match re
    case Seq(l, r) => FreeConsumes(l); FreeConsumes(r);
    case Alt(l, r) => FreeConsumes(l); FreeConsumes(r);
    case Opt(b) => FreeConsumes(b);
    case Group(_, b) => FreeConsumes(b);
    case _ =>
  }
}
