/** When the rewriting of star jumps loses a match: exactly when, for a loop over one character
    class with a row of zero-width operators behind it, such as `a*\b`. */
module RegexLoss {
  import opened RegexSyntax
  import opened RegexProgram
  import opened RegexStructure
  import opened RegexBacktrack
  import opened RegexFirst
  import opened RegexMachine
  import opened RegexRuns
  import opened RegexCode
  import opened RegexMatcher
  import opened RegexBuffer
  import opened RegexRoom
  import opened RegexTail

  // ----- a row of zero-width operators -----

  predicate Row(r: Re) {
    match r
    case Eps => true
    case Assert(_) => true
    case Seq(x, y) => Row(x) && Row(y)
    case Group(_, b) => Row(b)
    case _ => false
  }

  predicate HasEol(r: Re) {
    match r
    case Assert(a) => a == Eol
    case Seq(x, y) => HasEol(x) || HasEol(y)
    case Group(_, b) => HasEol(b)
    case _ => false
  }

  /** What stands at one side of a position. */
  datatype Side = Edge | Beside(c: byte)

  predicate HoldsBetween(a: Assertion, prev: Side, next: Side) {
    match a
    case Bol => prev.Edge? || prev.c == NEWLINE
    case Eol => next.Edge? || next.c == NEWLINE
    case BegBuf => prev.Edge?
    case EndBuf => next.Edge?
    case WordBeg => next.Beside? && IsWord(next.c) && (prev.Edge? || !IsWord(prev.c))
    case WordEnd => prev.Beside? && IsWord(prev.c) && (next.Edge? || !IsWord(next.c))
    case WordBound => prev.Edge? || next.Edge? || IsWord(prev.c) != IsWord(next.c)
    case NotWordBound => prev.Beside? && next.Beside? && IsWord(prev.c) == IsWord(next.c)
  }

  predicate RowBetween(r: Re, prev: Side, next: Side) {
    match r
    case Eps => true
    case Assert(a) => HoldsBetween(a, prev, next)
    case Seq(x, y) => RowBetween(x, prev, next) && RowBetween(y, prev, next)
    case Group(_, b) => RowBetween(b, prev, next)
    case _ => false
  }

  function Before(text: seq<byte>, i: nat): Side
    requires i <= |text|
  {
    if i == 0 then Edge else Beside(text[i - 1])
  }

  function After(text: seq<byte>, i: nat): Side
    requires i <= |text|
  {
    if i == |text| then Edge else Beside(text[i])
  }

  predicate RowHolds(r: Re, text: seq<byte>, i: nat)
    requires i <= |text|
  {
    RowBetween(r, Before(text, i), After(text, i))
  }

  lemma HoldsHere(a: Assertion, text: seq<byte>, i: nat)
    requires i <= |text|
    ensures Holds(a, text, i) == HoldsBetween(a, Before(text, i), After(text, i))
  {
  }

  /** A row matches nothing but the empty text, where all its operators hold. */
  lemma {:induction false} RowMatches(r: Re, text: seq<byte>, i: nat, j: nat)
    requires Row(r) && i <= |text| && j <= |text|
    ensures Matches(r, text, i, j) <==> i == j && RowHolds(r, text, i)
    decreases r
  {
    hide Holds, HoldsBetween, Before, After;
    match r
    case Eps =>
    case Assert(a) => HoldsHere(a, text, i);
    case Group(_, b) => RowMatches(b, text, i, j);
    case Seq(x, y) =>
      forall k: nat | i <= k <= j ensures Matches(x, text, i, k) && Matches(y, text, k, j) <==>
        i == k == j && RowHolds(r, text, i) {
        RowMatches(x, text, i, k);
        RowMatches(y, text, k, j);
      }
      if i == j && RowHolds(r, text, i) { assert Matches(x, text, i, i) && Matches(y, text, i, j); }
  }

  lemma {:induction false} RowEncodable(r: Re)
    requires Row(r)
    ensures NoBackref(r) && Encodable(r)
  {
    match r
    case Seq(x, y) => RowEncodable(x); RowEncodable(y);
    case Group(_, b) => RowEncodable(b);
    case _ =>
  }

  lemma RowParts(r: Re)
    requires Row(r)
    ensures r.Eps? || r.Assert? || r.Seq? || r.Group?
    ensures r.Seq? ==> Row(r.left) && Row(r.right)
    ensures r.Group? ==> Row(r.body)
  {
  }

  /** What can come first behind a row. */
  lemma {:induction false} RowOpens(p: Program, o: nat, r: Re, g: Goal)
    requires Fits(p, o, r) && Row(r)
    ensures CanOpen(p, o, g) <==> if HasEol(r) then g.AtEol? || g == Char(NEWLINE) else CanOpen(p, o + Len(r), g)
    decreases r
  {
    hide *;
    RowParts(r);
    EolParts(r);
    match r
    case Seq(x, y) =>
      SeqLayout(p, o, x, y);
      RowOpens(p, o, x, g);
      RowOpens(p, o + Len(x), y, g);
    case Group(k, b) =>
      GroupLayout(p, o, k, b);
      if k == 0 {
        RowOpens(p, o, b, g);
      } else {
        PassOpens(p, o, g);
        RowOpens(p, o + 2, b, g);
        PassOpens(p, o + 2 + Len(b), g);
      }
    case _ => LeafOpens(p, o, r, g);
  }

  lemma EolParts(r: Re)
    requires Row(r)
    ensures r.Seq? ==> HasEol(r) == (HasEol(r.left) || HasEol(r.right))
    ensures r.Group? ==> HasEol(r) == HasEol(r.body)
  {
  }

  lemma LeafOpens(p: Program, o: nat, r: Re, g: Goal)
    requires Fits(p, o, r) && (r.Eps? || r.Assert?)
    ensures CanOpen(p, o, g) <==> if HasEol(r) then g.AtEol? || g == Char(NEWLINE) else CanOpen(p, o + Len(r), g)
  {
    hide CanOpen, Opens;
    if r.Assert? { TestOpens(p, o, g); }
  }

  lemma PassOpens(p: Program, pc: int, g: Goal)
    requires 0 <= pc < |p| && (p[pc].Mem? || (p[pc].Test? && !p[pc].a.Eol?))
    ensures CanOpen(p, pc, g) <==> CanOpen(p, p[pc].next, g)
  {
    if n: nat :| Opens(p, p[pc].next, g, n) { assert Opens(p, pc, g, n + 1); }
    if n: nat :| Opens(p, pc, g, n) { assert Opens(p, p[pc].next, g, n - 1); }
  }

  lemma TestOpens(p: Program, pc: int, g: Goal)
    requires 0 <= pc < |p| && p[pc].Test?
    ensures CanOpen(p, pc, g) <==> if p[pc].a.Eol? then g.AtEol? || g == Char(NEWLINE) else CanOpen(p, p[pc].next, g)
  {
    if p[pc].a.Eol? {
      assert Opens(p, pc, g, 0) <==> g.AtEol? || g == Char(NEWLINE);
    } else {
      PassOpens(p, pc, g);
    }
  }

  // ----- the loop in front of it -----

  lemma {:induction false} RowTail(r: Re)
    requires Row(r)
    ensures Tail(r) && Forks(r) == 0
  {
    RowEncodable(r);
    hide Encodable, NoBackref;
    match r
    case Seq(x, y) => RowTail(x); RowTail(y);
    case Group(_, b) => RowTail(b);
    case _ =>
  }

  /** The matcher updates the loop's failure point. */
  predicate Updates(cl: CharClass, r: Re) {
    !cl.Syntax? && !cl.NotSyntax? && !(HasEol(r) && Accepts(cl, NEWLINE))
  }

  lemma RowUpdated(cl: CharClass, r: Re)
    requires Row(r)
    ensures Updated(cl, r) <==> Updates(cl, r)
  {
    hide *;
    RowEncodable(r);
    LoopLaid(cl, r);
    LoopFirst(Pristine(Loop(cl, r)), cl, r);
    UpdatesIs(cl, r);
  }

  /** What follows the loop can begin with a newline, if there is a `$`, and with nothing else. */
  lemma LoopFirst(p: Program, cl: CharClass, r: Re)
    requires LoopCode(p, cl, r) && Row(r)
    ensures forall c: byte :: CanOpen(p, TailAt(cl), Char(c)) <==> HasEol(r) && c == NEWLINE
  {
    hide CanOpen, HasEol, Fits, Len, Row, AtomLen;
    forall c: byte ensures CanOpen(p, TailAt(cl), Char(c)) <==> HasEol(r) && c == NEWLINE {
      RowOpens(p, TailAt(cl), r, Char(c));
      EndOpens(p, TailAt(cl) + Len(r), c);
    }
  }

  lemma EndOpens(p: Program, pc: int, c: byte)
    requires 0 <= pc < |p| && p[pc].End?
    ensures !CanOpen(p, pc, Char(c))
  {
  }

  lemma UpdatesIs(cl: CharClass, r: Re)
    requires forall d: byte :: CanOpen(Pristine(Loop(cl, r)), TailAt(cl), Char(d)) <==> HasEol(r) && d == NEWLINE
    ensures Updated(cl, r) <==> Updates(cl, r)
  {
    hide CanOpen, HasEol, Accepts, Pristine, TailAt;
    assert CanOpen(Pristine(Loop(cl, r)), TailAt(cl), Char(NEWLINE)) <==> HasEol(r);
  }

  lemma HoldsMatches(r: Re, text: seq<byte>, t: nat)
    requires Row(r) && t <= |text|
    ensures MatchesAt(r, text, t) <==> RowHolds(r, text, t)
  {
    hide RowHolds, Row, Matches;
    forall e: nat | e <= |text| ensures Matches(r, text, t, e) <==> t == e && RowHolds(r, text, t) {
      RowMatches(r, text, t, e);
    }
    assert Matches(r, text, t, t) <==> RowHolds(r, text, t);
  }

  /** The matcher takes as many characters as there are, and then the row must hold. */
  lemma LoopAnswer(cl: CharClass, r: Re, text: seq<byte>, pos: nat)
    requires Row(r) && Updates(cl, r) && pos <= |text|
    ensures var m := RunEnd(cl, text, pos);
            Answer(Loop(cl, r), text, pos, if RowHolds(r, text, m) then Found(m) else Fail)
  {
    hide *;
    var m := RunEnd(cl, text, pos);
    RowTail(r);
    RowEncodable(r);
    RowUpdated(cl, r);
    LoopEncodable(cl, r);
    RunEndAt(cl, text, pos);
    RunEndWithin(cl, text, pos);
    var o := HasAnswer(Loop(cl, r), text, pos);
    TailAnswer(cl, r, text, pos, o);
    SomeRoom();
    TailFails(cl, r, text, m);
    HoldsMatches(r, text, m);
    if o.Found? { RowMatches(r, text, m, o.end); }
  }

  lemma SomeRoom()
    ensures 0 <= MAX_FAILURES
  {
  }

  lemma RunEndWithin(cl: CharClass, text: seq<byte>, t: nat)
    requires t <= |text|
    ensures t <= RunEnd(cl, text, t) <= |text|
  {
  }

  // ----- when a match is lost -----

  /** At a given place: the matcher loses a match exactly when it updates the loop, the row does not
      hold behind all the characters, and it holds somewhere before. */
  lemma LostExactly(cl: CharClass, r: Re, text: seq<byte>, pos: nat)
    requires Row(r) && pos <= |text|
    ensures LostAt(Loop(cl, r), text, pos) <==>
      && Updates(cl, r) && !RowHolds(r, text, RunEnd(cl, text, pos))
      && exists t: nat :: pos <= t < RunEnd(cl, text, pos) && RowHolds(r, text, t)
  {
    hide Updates, RunEnd, RowHolds, Row, MatchesAt, LostAt, Updated, Tail, Forks;
    RowTail(r);
    RowUpdated(cl, r);
    TailLost(cl, r, text, pos);
    forall t: nat | t <= |text| ensures MatchesAt(r, text, t) <==> RowHolds(r, text, t) { HoldsMatches(r, text, t); }
  }

  /** Some match of the loop is lost. */
  ghost predicate Loses(cl: CharClass, r: Re) {
    exists text: seq<byte>, pos: nat :: pos <= |text| && LostAt(Loop(cl, r), text, pos)
  }

  ghost predicate HoldsBefore(cl: CharClass, r: Re, prev: Side, c: byte) {
    Accepts(cl, c) && RowBetween(r, prev, Beside(c))
  }

  ghost predicate FailsBehind(cl: CharClass, r: Re, c: byte, next: Side) {
    Accepts(cl, c) && (next.Beside? ==> !Accepts(cl, next.c)) && !RowBetween(r, Beside(c), next)
  }

  /** The condition under which the loop loses matches: the matcher updates it, the row can hold in
      front of a character of the class, and can fail behind the last one. */
  ghost predicate LossCondition(cl: CharClass, r: Re) {
    && Updates(cl, r)
    && (exists prev: Side, c: byte :: HoldsBefore(cl, r, prev, c))
    && exists c: byte, next: Side :: FailsBehind(cl, r, c, next)
  }

  lemma LosesExactly(cl: CharClass, r: Re)
    requires Row(r)
    ensures Loses(cl, r) <==> LossCondition(cl, r)
  {
    hide Row, Updates, LostAt, RowBetween, RunEnd, Accepts;
    if Loses(cl, r) {
      var text: seq<byte>, pos: nat :| pos <= |text| && LostAt(Loop(cl, r), text, pos);
      LossHere(cl, r, text, pos);
    }
    if LossCondition(cl, r) {
      var prev: Side, c: byte :| HoldsBefore(cl, r, prev, c);
      var d: byte, next: Side :| FailsBehind(cl, r, d, next);
      var text, pos := LossText(cl, r, prev, c, d, next);
    }
  }

  lemma LossHere(cl: CharClass, r: Re, text: seq<byte>, pos: nat)
    requires Row(r) && pos <= |text| && LostAt(Loop(cl, r), text, pos)
    ensures LossCondition(cl, r)
  {
    hide *;
    LostExactly(cl, r, text, pos);
    var m := RunEnd(cl, text, pos);
    var t: nat :| pos <= t < m && RowHolds(r, text, t);
    HoldsAt(cl, r, text, t);
    FailsAt(cl, r, text, pos);
    ConditionIs(cl, r);
  }

  lemma ConditionIs(cl: CharClass, r: Re)
    ensures LossCondition(cl, r) <==>
      && Updates(cl, r)
      && (exists prev: Side, c: byte :: HoldsBefore(cl, r, prev, c))
      && exists c: byte, next: Side :: FailsBehind(cl, r, c, next)
  {
    hide Updates, HoldsBefore, FailsBehind;
  }

  lemma HoldsAt(cl: CharClass, r: Re, text: seq<byte>, t: nat)
    requires t < |text| && Accepts(cl, text[t]) && RowHolds(r, text, t)
    ensures exists prev: Side, c: byte :: HoldsBefore(cl, r, prev, c)
  {
    hide Accepts, RowBetween;
    assert HoldsBefore(cl, r, Before(text, t), text[t]);
  }

  lemma FailsAt(cl: CharClass, r: Re, text: seq<byte>, pos: nat)
    requires pos <= |text| && pos < RunEnd(cl, text, pos) && !RowHolds(r, text, RunEnd(cl, text, pos))
    ensures exists c: byte, next: Side :: FailsBehind(cl, r, c, next)
  {
    hide Accepts, RowBetween;
    var m := RunEnd(cl, text, pos);
    assert FailsBehind(cl, r, text[m - 1], After(text, m));
  }

  function Written(s: Side): seq<byte> {
    if s.Edge? then [] else [s.c]
  }

  lemma LossText(cl: CharClass, r: Re, prev: Side, c: byte, d: byte, next: Side) returns (text: seq<byte>, pos: nat)
    requires Row(r) && Updates(cl, r) && HoldsBefore(cl, r, prev, c) && FailsBehind(cl, r, d, next)
    ensures pos <= |text| && LostAt(Loop(cl, r), text, pos)
  {
    hide Row, Updates, LostAt, RowBetween, Accepts, RunEnd;
    text, pos := Written(prev) + [c, d] + Written(next), |Written(prev)|;
    LostExactly(cl, r, text, pos);
    RunEndAt(cl, text, pos);
    RunEndAt(cl, text, pos + 1);
    RunEndAt(cl, text, pos + 2);
    assert RunEnd(cl, text, pos) == pos + 2;
    assert Before(text, pos) == prev && After(text, pos) == Beside(c);
    assert Before(text, pos + 2) == Beside(d) && After(text, pos + 2) == next;
    assert RowHolds(r, text, pos) && !RowHolds(r, text, pos + 2);
  }

  // ----- the operators one by one -----

  /** What the condition comes to for one operator. */
  ghost predicate LosesAlone(cl: CharClass, a: Assertion) {
    && !cl.Syntax? && !cl.NotSyntax?
    && match a
       case Bol => exists c: byte :: Accepts(cl, c) && c != NEWLINE
       case Eol => false
       case BegBuf => exists c: byte :: Accepts(cl, c)
       case EndBuf => false
       case WordBeg => exists c: byte :: Accepts(cl, c) && IsWord(c)
       case WordEnd => exists c: byte :: Accepts(cl, c) && !IsWord(c)
       case WordBound => exists c: byte, d: byte :: Accepts(cl, c) && !Accepts(cl, d) && IsWord(c) == IsWord(d)
       case NotWordBound => exists c: byte :: Accepts(cl, c)
  }

  lemma OneOperator(cl: CharClass, a: Assertion)
    ensures Loses(cl, Assert(a)) <==> LosesAlone(cl, a)
  {
    hide Loses, Accepts, IsWord, LossCondition;
    LosesExactly(cl, Assert(a));
    if LossCondition(cl, Assert(a)) { AloneOnly(cl, a); }
    if LosesAlone(cl, a) { AloneLoses(cl, a); }
  }

  lemma AloneOnly(cl: CharClass, a: Assertion)
    requires LossCondition(cl, Assert(a))
    ensures LosesAlone(cl, a)
  {
    hide Accepts, IsWord;
    var prev: Side, c: byte :| HoldsBefore(cl, Assert(a), prev, c);
    var d: byte, next: Side :| FailsBehind(cl, Assert(a), d, next);
    match a
    case WordBound => assert next.Beside? && Accepts(cl, d) && !Accepts(cl, next.c) && IsWord(d) == IsWord(next.c);
    case Bol => assert Accepts(cl, d) && d != NEWLINE;
    case Eol =>
    case EndBuf =>
    case _ => assert Accepts(cl, c);
  }

  lemma AloneLoses(cl: CharClass, a: Assertion)
    requires LosesAlone(cl, a)
    ensures LossCondition(cl, Assert(a))
  {
    hide Accepts, IsWord;
    match a
    case Bol =>
      var c: byte :| Accepts(cl, c) && c != NEWLINE;
      assert HoldsBefore(cl, Assert(a), Edge, c) && FailsBehind(cl, Assert(a), c, Edge);
    case BegBuf =>
      var c: byte :| Accepts(cl, c);
      assert HoldsBefore(cl, Assert(a), Edge, c) && FailsBehind(cl, Assert(a), c, Edge);
    case WordBeg =>
      var c: byte :| Accepts(cl, c) && IsWord(c);
      assert HoldsBefore(cl, Assert(a), Edge, c) && FailsBehind(cl, Assert(a), c, Edge);
    case WordEnd =>
      var c: byte :| Accepts(cl, c) && !IsWord(c);
      WordLetter();
      assert HoldsBefore(cl, Assert(a), Beside(97), c) && FailsBehind(cl, Assert(a), c, Edge);
    case WordBound =>
      var c: byte, d: byte :| Accepts(cl, c) && !Accepts(cl, d) && IsWord(c) == IsWord(d);
      assert HoldsBefore(cl, Assert(a), Edge, c) && FailsBehind(cl, Assert(a), c, Beside(d));
    case NotWordBound =>
      var c: byte :| Accepts(cl, c);
      assert HoldsBefore(cl, Assert(a), Beside(c), c) && FailsBehind(cl, Assert(a), c, Edge);
  }

  lemma WordLetter()
    ensures IsWord(97)
  {
  }

  /** `a*\b` on "aaab": the empty match at the beginning is lost. */
  lemma BoundaryLost()
    ensures LostAt(Loop(Exact(97), Assert(WordBound)), [97, 97, 97, 98], 0)
  {
    var cl, r, text := Exact(97), Assert(WordBound), [97, 97, 97, 98];
    LostExactly(cl, r, text, 0);
    hide LostAt;
    assert RunEnd(cl, text, 3) == 3 && RunEnd(cl, text, 2) == 3 && RunEnd(cl, text, 1) == 3 && RunEnd(cl, text, 0) == 3;
    assert RowHolds(r, text, 0) && !RowHolds(r, text, 3);
  }
}
