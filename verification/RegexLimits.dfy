/** The limits of src/regexpr.c, exactly: how far groups nest, how many alternatives wait, which groups get a
    register, and when the failure points run out. */
module RegexLimits {
  import opened RegexSyntax
  import opened RegexTables
  import opened RegexProgram
  import opened RegexStructure
  import opened RegexBacktrack
  import opened RegexFirst
  import opened RegexMachine
  import opened RegexCode
  import opened RegexMatcher
  import opened RegexBuffer
  import opened RegexParse
  import opened RegexRoom
  import opened RegexWhole
  import opened RegexNotation
  import opened RegexOperators

  // ----- groups -----

  /** The register of the k-th group: the first nine have one. */
  function Register(k: int): byte {
    if 0 <= k < 10 then k else 0
  }

  /** The groups around the k-th, and the whole pattern. */
  function Around(k: nat): seq<Frame> {
    seq(k, i => Frame(Register(i), [], Eps, Eps))
  }

  /** k groups have been opened, one in the other, and nothing else read. */
  function Opened(k: nat): State {
    State(Around(k), Frame(Register(k), [], Eps, Eps),
      if k < 10 then k + 1 else 10, true)
  }

  /** Of n groups, one in the other, what stands inside of the k-th. */
  function Within(k: nat, n: nat): Re
    decreases n - k
  {
    if k >= n then Eps else Group(Register(k + 1), Within(k + 1, n))
  }

  /** All but k of n groups have been closed again. */
  function Closed(k: nat, n: nat): State
    requires k < n
  {
    State(Around(k), Frame(Register(k), [], Eps, Within(k, n)),
      if n < 10 then n + 1 else 10, false)
  }

  predicate StandsAt(s: seq<byte>, pos: nat, c: byte) {
    pos + 2 <= |s| && s[pos] == 92 && s[pos + 1] == c
  }

  lemma OpenStep(k: nat)
    requires k < 99
    ensures Feed(Opened(k), Open) == Ok(Opened(k + 1))
  {
    var f := Frame(Register(k), [], Eps, Eps);
    assert Merge(f) == f;
    assert Around(k) + [f] == Around(k + 1);
  }

  lemma CloseStep(st: State, k: nat, n: nat)
    requires 0 < k <= n && st == if k == n then Opened(n) else Closed(k, n)
    ensures Feed(st, Close) == Ok(Closed(k - 1, n))
  {
    var all := Around(k);
    assert st.outer == all && st.cur == Frame(Register(k), [], Eps, Within(k, n));
    assert all[..k - 1] == Around(k - 1);
    assert Build(st.cur) == Within(k, n);
  }

  lemma {:induction false} OpensRead(s: seq<byte>, k: nat)
    requires k < 100 && forall i :: 0 <= i < k ==> StandsAt(s, 2 * i, '(' as int)
    ensures 2 * k <= |s| && ParseFrom(s, 0, Start()) == ParseFrom(s, 2 * k, Opened(k))
    decreases k
  {
    hide *;
    if k == 0 {
      NoneOpened();
    } else {
      OpensRead(s, k - 1);
      OpenAt(s, 2 * (k - 1));
      OpenStep(k - 1);
      OneMore(s, 2 * (k - 1), Opened(k - 1), Open, 2 * k, Opened(k));
    }
  }

  lemma NoneOpened()
    ensures Opened(0) == Start()
  {
    assert Around(0) == [];
  }

  lemma OpenAt(s: seq<byte>, pos: nat)
    ensures StandsAt(s, pos, '(' as int) ==> pos + 2 <= |s| && TokenAt(s, pos) == (Open, pos + 2)
    ensures StandsAt(s, pos, ')' as int) ==> pos + 2 <= |s| && TokenAt(s, pos) == (Close, pos + 2)
    ensures StandsAt(s, pos, '|' as int) ==> pos + 2 <= |s| && TokenAt(s, pos) == (Bar, pos + 2)
  {
  }

  lemma {:induction false} ClosesRead(s: seq<byte>, n: nat, k: nat)
    requires k <= n < 100
    requires forall i :: 0 <= i < n ==> StandsAt(s, 2 * i, '(' as int)
    requires forall i :: n <= i < 2 * n - k ==> StandsAt(s, 2 * i, ')' as int)
    ensures 2 * (2 * n - k) <= |s|
    ensures ParseFrom(s, 0, Start()) == ParseFrom(s, 2 * (2 * n - k), if k == n then Opened(n) else Closed(k, n))
    decreases n - k
  {
    hide *;
    if k == n {
      OpensRead(s, n);
    } else {
      ClosesRead(s, n, k + 1);
      var st, j := if k + 1 == n then Opened(n) else Closed(k + 1, n), 2 * n - (k + 1);
      assert StandsAt(s, 2 * j, ')' as int);
      OpenAt(s, 2 * j);
      CloseStep(st, k + 1, n);
      OneMore(s, 2 * j, st, Close, 2 * j + 2, Closed(k, n));
    }
  }

  /** n groups, one in the other, can be read exactly when n is less than 100. */
  lemma NestingLimit(s: seq<byte>, n: nat)
    requires |s| == 4 * n
    requires forall i :: 0 <= i < n ==> StandsAt(s, 2 * i, '(' as int)
    requires forall i :: n <= i < 2 * n ==> StandsAt(s, 2 * i, ')' as int)
    ensures Parse(s) == if n < 100 then Ok(Within(0, n)) else Err(TooComplex)
  {
    hide *;
    ParseStart(s);
    if n < 100 {
      ClosesRead(s, n, 0);
      var st := if n == 0 then Opened(0) else Closed(0, n);
      ParseEnd(s, st);
      AllClosed(n);
    } else {
      OpensRead(s, 99);
      assert StandsAt(s, 2 * 99, '(' as int);
      OpenAt(s, 2 * 99);
      TooDeep();
      Stops(s, 2 * 99, Opened(99), Open, 2 * 100, TooComplex);
    }
  }

  lemma AllClosed(n: nat)
    ensures Opened(0).outer == [] && Build(Opened(0).cur) == Within(0, 0)
    ensures n > 0 ==> Closed(0, n).outer == [] && Build(Closed(0, n).cur) == Within(0, n)
  {
    assert Around(0) == [];
  }

  lemma TooDeep()
    ensures Feed(Opened(99), Open) == Err(TooComplex)
  {
  }

  /** The first nine groups have the registers 1 to 9, and the others none. */
  lemma Registers(k: nat, n: nat)
    requires k < n
    ensures Within(k, n) == Group(if k < 9 then k + 1 else 0, Within(k + 1, n))
  {
  }

  // ----- alternatives -----

  /** k alternatives, all of them empty, have been read. */
  function Barred(k: nat): State {
    State([], Frame(0, seq(k, i => Eps), Eps, Eps), 1, true)
  }

  lemma BarStep(k: nat)
    ensures Feed(Barred(k), Bar) == if k < 100 then Ok(Barred(k + 1)) else Err(TooComplex)
  {
    hide Pending, Frames;
    PendingBars(k);
    assert seq(k, i => Eps) + [Eps] == seq(k + 1, i => Eps);
  }

  lemma PendingBars(k: nat)
    ensures Pending(Frames(Barred(k))) == k
  {
    var f := Barred(k).cur;
    assert Frames(Barred(k)) == [f] && [f][..0] == [];
    assert Pending([]) == 0;
  }

  lemma {:induction false} BarsRead(s: seq<byte>, k: nat)
    requires k <= 100 && forall i :: 0 <= i < k ==> StandsAt(s, 2 * i, '|' as int)
    ensures 2 * k <= |s| && ParseFrom(s, 0, Start()) == ParseFrom(s, 2 * k, Barred(k))
    decreases k
  {
    hide *;
    if k == 0 {
      NoneBarred();
    } else {
      BarsRead(s, k - 1);
      OpenAt(s, 2 * (k - 1));
      BarStep(k - 1);
      OneMore(s, 2 * (k - 1), Barred(k - 1), Bar, 2 * k, Barred(k));
    }
  }

  lemma NoneBarred()
    ensures Barred(0) == Start()
  {
    assert seq(0, i => Eps) == [];
  }

  /** n bars in a row can be read exactly when n is at most 100. */
  lemma BarLimit(s: seq<byte>, n: nat)
    requires |s| == 2 * n && forall i :: 0 <= i < n ==> StandsAt(s, 2 * i, '|' as int)
    ensures if n <= 100 then Parse(s).Ok? else Parse(s) == Err(TooComplex)
  {
    hide *;
    ParseStart(s);
    if n <= 100 {
      BarsRead(s, n);
      ParseEnd(s, Barred(n));
      BarredOuter(n);
    } else {
      BarsRead(s, 100);
      assert StandsAt(s, 2 * 100, '|' as int);
      OpenAt(s, 2 * 100);
      BarStep(100);
      Stops(s, 2 * 100, Barred(100), Bar, 2 * 101, TooComplex);
    }
  }

  lemma BarredOuter(n: nat)
    ensures Finish(Barred(n)).Ok?
  {
    hide Build;
  }

  // ----- failure points -----

  /** The number of word characters that follow one another from pos on. */
  function WordRun(text: seq<byte>, pos: nat): (n: nat)
    requires pos <= |text|
    ensures pos + n <= |text|
    decreases |text| - pos
  {
    hide IsWordChar;
    if pos < |text| && IsWordChar(text[pos] as char) then 1 + WordRun(text, pos + 1) else 0
  }

  lemma {:induction false} WordRunIs(text: seq<byte>, pos: nat)
    requires pos <= |text|
    ensures var n := WordRun(text, pos);
      && (forall k :: pos <= k < pos + n ==> IsWordChar(text[k] as char))
      && (pos + n < |text| ==> !IsWordChar(text[pos + n] as char))
    decreases |text| - pos
  {
    hide IsWordChar;
    if pos < |text| && IsWordChar(text[pos] as char) { WordRunIs(text, pos + 1); }
  }

  /** The settled code of `\w*`: the matcher does not update loops over words. */
  ghost predicate WordCode(q: Program) {
    |q| == 9 && q[0] == Fork(3, 8) && q[3] == Eat(Syntax(1), 5) && q[5] == RegexProgram.Jump(0)
    && q[8] == RegexProgram.End
  }

  lemma WordSettled()
    ensures NoBackref(Star(Atom(Syntax(1)))) && Encodable(Star(Atom(Syntax(1))))
    ensures WordCode(Final(Star(Atom(Syntax(1)))))
  {
    var b := Atom(Syntax(1));
    var re := Star(b);
    assert NoBackref(b) && Encodable(b) && Len(b) == 2;
    PristineSound(re);
    hide Pristine, Sound, StarUpdates;
    var p, S := Pristine(re), AllStarts(re);
    assert LoopFits(p, 0, b) && Fits(p, 3, b);
    assert Starts(b, 3) == {3} && S == {0, 5} + {3} + {8};
    assert p[3] == Eat(Syntax(1), 5) && p[5] == StarJump(0) && p[8] == RegexProgram.End;
    NotUpdated(p, S);
  }

  lemma NotUpdated(p: Program, S: set<int>)
    requires |p| == 9 && p[3] == Eat(Syntax(1), 5) && p[5] == StarJump(0)
    ensures !StarUpdates(p, S, 5)
  {
    assert EaterAt(p, 3) == 3;
  }

  /** Each round of the loop leaves a failure point. */
  lemma {:induction false} WordRuns(q: Program, text: seq<byte>, pos: nat, stack: seq<FailurePoint>)
    requires WordCode(q) && pos <= |text| && |stack| <= 4100
    ensures Answers(q, text, Config(0, pos, stack),
      if |stack| + WordRun(text, pos) < 4100 then Found(pos + WordRun(text, pos)) else Overflow)
    decreases |text| - pos
  {
    hide Answers, IsWordChar, IsWord, SyntaxOf;
    var c, f := Config(0, pos, stack), AtText(8, pos);
    var o := if |stack| + WordRun(text, pos) < 4100 then Found(pos + WordRun(text, pos)) else Overflow;
    if |stack| == 4100 {
      StopsNow(q, text, c, Overflow);
    } else {
      var c1 := Config(3, pos, stack + [f]);
      assert Rest(stack + [f]) == stack && Top(stack + [f]) == f;
      if pos < |text| { SyntaxIs(text[pos]); }
      if pos < |text| && IsWordChar(text[pos] as char) {
        var c2, c3 := Config(5, pos + 1, stack + [f]), Config(0, pos + 1, stack + [f]);
        WordRuns(q, text, pos + 1, stack + [f]);
        StepsTo(q, text, c2, c3, o);
        StepsTo(q, text, c1, c2, o);
      } else {
        var c2 := Config(8, pos, stack);
        StopsNow(q, text, c2, o);
        StepsTo(q, text, c1, c2, o);
      }
      StepsTo(q, text, c, c1, o);
    }
  }

  lemma WordStarReads()
    ensures Parse([92, 'w' as int, '*' as int]) == Ok(Star(Atom(Syntax(1))))
  {
    hide *;
    var s := [92, 119, 42];
    ParseStart(s);
    StartIs();
    WordToken(s);
    var s1 := State([], Frame(0, [], Eps, Atom(Syntax(1))), 1, false);
    OneMore(s, 0, Start(), Item(Atom(Syntax(1))), 2, s1);
    StepPostfix(s, 2, s1);
    RepeatedIs(42, Atom(Syntax(1)));
    SnocIs(Eps, Star(Atom(Syntax(1))));
    AtEnd(s, State([], Frame(0, [], Eps, Star(Atom(Syntax(1)))), 1, false));
  }

  lemma WordToken(s: seq<byte>)
    requires |s| > 1 && s[0] == 92 && s[1] == 'w' as int
    ensures TokenAt(s, 0) == (Item(Atom(Syntax(1))), 2) && Len(Atom(Syntax(1))) > 0
    ensures Feed(Start(), Item(Atom(Syntax(1)))) == Ok(State([], Frame(0, [], Eps, Atom(Syntax(1))), 1, false))
  {
  }

  /** `\w*` takes all word characters that follow one another, if they are less than 4100, and runs out of
      failure points if they are not. */
  lemma WordStarLimit(text: seq<byte>, pos: nat)
    requires pos <= |text|
    ensures Returns([92, 'w' as int, '*' as int], text, pos,
      if WordRun(text, pos) < 4100 then WordRun(text, pos) else -2)
  {
    hide Returns, Parse, Answers, WordCode, Final, IsWordChar, NoBackref, Encodable;
    WordStarReads();
    WordSettled();
    WordRuns(Final(Star(Atom(Syntax(1)))), text, pos, []);
    AnswerReturns([92, 119, 42], Star(Atom(Syntax(1))), text, pos,
      if WordRun(text, pos) < 4100 then WordRun(text, pos) else -2);
  }

  /** So the bound under which no failure points run out is met by this pattern. */
  lemma RoomIsTight(n: nat)
    ensures Roomy(Star(Atom(Syntax(1))), n) <==> n < 4100
  {
    var b := Atom(Syntax(1));
    assert Forks(b) == 0 && PerChar(b) == 0;
    assert LoopsConsume(Star(b)) && Forks(Star(b)) == 1 && PerChar(Star(b)) == 1;
  }
}
