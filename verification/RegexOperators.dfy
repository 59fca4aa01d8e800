/** How the operators of a pattern combine, as it is written: what they apply to, where they are characters,
    which patterns cannot be read, and what the matcher returns. */
module RegexOperators {
  import opened RegexSyntax
  import opened RegexProgram
  import opened RegexStructure
  import opened RegexBacktrack
  import opened RegexFirst
  import opened RegexMachine
  import opened RegexRuns
  import opened RegexCode
  import opened RegexMatcher
  import opened RegexBuffer
  import opened RegexParse
  import opened RegexRoom
  import opened RegexTail
  import opened RegexWhole
  import RegexLoss
  import opened RegexNotation
  import RegexPrint

  // ----- what the operators apply to -----

  /** A byte that stands for itself everywhere outside of sets. */
  predicate Ordinary(c: byte) {
    (c as char) !in "\\*+?[^$."
  }

  function Char(c: byte): Re {
    Atom(Exact(c))
  }

  lemma ReadsChar(s: seq<byte>, pos: nat)
    requires pos < |s| && Ordinary(s[pos])
    ensures TokenAt(s, pos) == (Item(Char(s[pos])), pos + 1)
  {
  }

  lemma ReadsQuoted(s: seq<byte>, pos: nat)
    requires pos + 1 < |s| && s[pos] == 92
    ensures TokenAt(s, pos) == (Quoted(s[pos + 1]), pos + 2)
    ensures Quoted('(' as int) == Open && Quoted(')' as int) == Close && Quoted('|' as int) == Bar
  {
  }

  lemma OneMore(s: seq<byte>, pos: nat, st: State, tok: Token, next: nat, st': State)
    requires pos < |s| && TokenAt(s, pos) == (tok, next) && Feed(st, tok) == Ok(st')
    ensures ParseFrom(s, pos, st) == ParseFrom(s, next, st')
  {
    hide TokenAt, Feed;
    ParseStep(s, pos, st);
  }

  // One operator after the other.

  /** The state behind an item. */
  function Behind(st: State, item: Re): State {
    State(st.outer, Frame(st.cur.reg, st.cur.alts, Snoc(st.cur.pre, st.cur.last), item), st.next, false)
  }

  /** The state behind a `^` or a `$`. */
  function Closing(st: State, item: Re): State {
    State(st.outer, Frame(st.cur.reg, st.cur.alts, Snoc(Snoc(st.cur.pre, st.cur.last), item), Eps), st.next, false)
  }

  lemma StepChar(s: seq<byte>, pos: nat, st: State)
    requires pos < |s| && Ordinary(s[pos])
    ensures ParseFrom(s, pos, st) == ParseFrom(s, pos + 1, Behind(st, Char(s[pos])))
  {
    hide Ordinary, Snoc;
    ReadsChar(s, pos);
    assert Feed(st, Item(Char(s[pos]))) == Ok(Behind(st, Char(s[pos])));
    hide *;
    OneMore(s, pos, st, Item(Char(s[pos])), pos + 1, Behind(st, Char(s[pos])));
  }

  function Repeated(op: byte, re: Re): Re {
    if op == '*' as int then Star(re) else if op == '+' as int then Plus(re) else Opt(re)
  }

  /** A postfix operator is a character where nothing precedes it, applies to the last item, or is ignored. */
  lemma StepPostfix(s: seq<byte>, pos: nat, st: State)
    requires pos < |s| && (s[pos] as char) in "*+?"
    ensures var f := st.cur;
      ParseFrom(s, pos, st) == ParseFrom(s, pos + 1,
        if st.begin then Behind(st, Char(s[pos]))
        else if Len(f.last) == 0 then st
        else State(st.outer, Frame(f.reg, f.alts, f.pre, Repeated(s[pos], f.last)), st.next, false))
  {
    hide Snoc, Len;
    assert TokenAt(s, pos) == (Postfix(s[pos]), pos + 1);
    PostfixFed(st, s[pos]);
    hide *;
    OneMore(s, pos, st, Postfix(s[pos]), pos + 1,
      if st.begin then Behind(st, Char(s[pos]))
      else if Len(st.cur.last) == 0 then st
      else State(st.outer, Frame(st.cur.reg, st.cur.alts, st.cur.pre, Repeated(s[pos], st.cur.last)), st.next, false));
  }

  lemma PostfixFed(st: State, op: byte)
    requires (op as char) in "*+?"
    ensures Feed(st, Postfix(op)) == Ok(
      if st.begin then Behind(st, Char(op))
      else if Len(st.cur.last) == 0 then st
      else State(st.outer, Frame(st.cur.reg, st.cur.alts, st.cur.pre, Repeated(op, st.cur.last)), st.next, false))
  {
    hide Snoc, Len;
  }

  lemma StepCaret(s: seq<byte>, pos: nat, st: State)
    requires pos < |s| && s[pos] == '^' as int
    ensures ParseFrom(s, pos, st) == ParseFrom(s, pos + 1, Closing(st, if st.begin then Assert(Bol) else Char(94)))
  {
    hide Snoc;
    assert TokenAt(s, pos) == (Caret, pos + 1);
    assert Feed(st, Caret) == Ok(Closing(st, if st.begin then Assert(Bol) else Char(94)));
    hide *;
    OneMore(s, pos, st, Caret, pos + 1, Closing(st, if st.begin then Assert(Bol) else Char(94)));
  }

  /** A `$` is the operator at the end, in front of `\|` and in front of `\)`. */
  lemma StepDollar(s: seq<byte>, pos: nat, st: State)
    requires pos < |s| && s[pos] == '$' as int
    ensures var ends := pos + 1 == |s| || (pos + 2 < |s| && s[pos + 1] == 92 && (s[pos + 2] as char) in "|)");
      ParseFrom(s, pos, st) == ParseFrom(s, pos + 1, Closing(st, if ends then Assert(Eol) else Char(36)))
  {
    hide Snoc;
    var ends := pos + 1 == |s| || (pos + 2 < |s| && s[pos + 1] == 92 && (s[pos + 2] as char) in "|)");
    assert TokenAt(s, pos) == (Dollar(ends), pos + 1);
    assert Feed(st, Dollar(ends)) == Ok(Closing(st, if ends then Assert(Eol) else Char(36)));
    hide *;
    OneMore(s, pos, st, Dollar(ends), pos + 1, Closing(st, if ends then Assert(Eol) else Char(36)));
  }

  /** The first `\|` outside of groups. */
  lemma StepBar(s: seq<byte>, pos: nat, st: State)
    requires pos + 1 < |s| && s[pos] == 92 && s[pos + 1] == '|' as int && st.outer == [] && st.cur.alts == []
    ensures ParseFrom(s, pos, st) == ParseFrom(s, pos + 2,
      State([], Frame(st.cur.reg, [Snoc(st.cur.pre, st.cur.last)], Eps, Eps), st.next, true))
  {
    hide *;
    ReadsQuoted(s, pos);
    BarFed(st);
    OneMore(s, pos, st, Bar, pos + 2,
      State([], Frame(st.cur.reg, [Snoc(st.cur.pre, st.cur.last)], Eps, Eps), st.next, true));
  }

  lemma BarFed(st: State)
    requires st.outer == [] && st.cur.alts == []
    ensures Feed(st, Bar) == Ok(State([], Frame(st.cur.reg, [Snoc(st.cur.pre, st.cur.last)], Eps, Eps), st.next, true))
  {
    hide Snoc, Pending, Frames;
    NonePending(st);
    assert [] + [Snoc(st.cur.pre, st.cur.last)] == [Snoc(st.cur.pre, st.cur.last)];
  }

  lemma NonePending(st: State)
    requires st.outer == [] && st.cur.alts == []
    ensures Pending(Frames(st)) == 0
  {
    assert Frames(st) == [st.cur] && [st.cur][..0] == [];
    assert Pending([]) == 0;
  }

  /** The first `\(`, with nothing in front of it. */
  lemma StepOpen(s: seq<byte>)
    requires |s| > 1 && s[0] == 92 && s[1] == '(' as int
    ensures Parse(s) == ParseFrom(s, 2, State([Start().cur], Frame(1, [], Eps, Eps), 2, true))
  {
    hide *;
    ParseStart(s);
    ReadsQuoted(s, 0);
    OpenFed();
    OneMore(s, 0, Start(), Open, 2, State([Start().cur], Frame(1, [], Eps, Eps), 2, true));
  }

  lemma OpenFed()
    ensures Feed(Start(), Open) == Ok(State([Start().cur], Frame(1, [], Eps, Eps), 2, true))
  {
    var f0 := Start().cur;
    assert [] + [f0] == [f0];
  }

  /** The `\)` of that group. */
  lemma StepClose(s: seq<byte>, pos: nat, st: State)
    requires pos + 1 < |s| && s[pos] == 92 && s[pos + 1] == ')' as int && st.outer == [Start().cur] && st.cur.alts == []
    ensures ParseFrom(s, pos, st) == ParseFrom(s, pos + 2,
      State([], Frame(0, [], Eps, Group(st.cur.reg, Snoc(st.cur.pre, st.cur.last))), st.next, false))
  {
    hide *;
    ReadsQuoted(s, pos);
    CloseFed(st);
    OneMore(s, pos, st, Close, pos + 2,
      State([], Frame(0, [], Eps, Group(st.cur.reg, Snoc(st.cur.pre, st.cur.last))), st.next, false));
  }

  lemma CloseFed(st: State)
    requires st.outer == [Start().cur] && st.cur.alts == []
    ensures Feed(st, Close) ==
      Ok(State([], Frame(0, [], Eps, Group(st.cur.reg, Snoc(st.cur.pre, st.cur.last))), st.next, false))
  {
    hide Snoc;
    assert [Start().cur][..0] == [];
  }

  /** At the end, with at most one `\|`. */
  lemma AtEnd(s: seq<byte>, st: State)
    requires st.outer == [] && |st.cur.alts| <= 1
    ensures var last := Snoc(st.cur.pre, st.cur.last);
      ParseFrom(s, |s|, st) == Ok(if st.cur.alts == [] then last else Alt(st.cur.alts[0], last))
  {
    hide Snoc, AltFold;
    ParseEnd(s, st);
    FoldOne(st.cur.alts, Snoc(st.cur.pre, st.cur.last));
  }

  lemma FoldOne(alts: seq<Re>, body: Re)
    requires |alts| <= 1
    ensures AltFold(alts, body) == if alts == [] then body else Alt(alts[0], body)
  {
    if alts != [] { assert alts[..0] == []; }
  }

  lemma StartIs()
    ensures Start() == State([], Frame(0, [], Eps, Eps), 1, true)
  {
  }

  lemma SnocIs(l: Re, r: Re)
    ensures Snoc(l, Eps) == l && Snoc(Eps, r) == r
    ensures !l.Eps? && !r.Eps? ==> Snoc(l, r) == Seq(l, r)
  {
  }

  lemma CharIs(x: byte)
    ensures Char(x) == Atom(Exact(x)) && !Char(x).Eps? && Len(Char(x)) == 2
  {
  }

  lemma BehindIs(st: State, item: Re)
    ensures Behind(st, item) ==
      State(st.outer, Frame(st.cur.reg, st.cur.alts, Snoc(st.cur.pre, st.cur.last), item), st.next, false)
    ensures Closing(st, item) ==
      State(st.outer, Frame(st.cur.reg, st.cur.alts, Snoc(Snoc(st.cur.pre, st.cur.last), item), Eps), st.next, false)
  {
    hide Snoc;
  }

  /** A byte, and what is in front of it and behind. */
  lemma NextChar(s: seq<byte>, pos: nat, st: State)
    requires pos < |s| && Ordinary(s[pos])
    ensures ParseFrom(s, pos, st) == ParseFrom(s, pos + 1,
      State(st.outer, Frame(st.cur.reg, st.cur.alts, Snoc(st.cur.pre, st.cur.last), Char(s[pos])), st.next, false))
    ensures Snoc(Eps, Eps) == Eps && !Char(s[pos]).Eps? && Len(Char(s[pos])) == 2
    ensures Snoc(Eps, Char(s[pos])) == Char(s[pos]) && Snoc(Char(s[pos]), Eps) == Char(s[pos])
  {
    hide *;
    StepChar(s, pos, st);
    BehindIs(st, Char(s[pos]));
    CharIs(s[pos]);
    SnocIs(Eps, Char(s[pos]));
    SnocIs(Char(s[pos]), Eps);
    SnocIs(Eps, Eps);
  }

  /** A postfix operator applies to the last character only. */
  lemma PostfixReads(x: byte, y: byte, op: byte)
    requires Ordinary(x) && Ordinary(y) && (op as char) in "*+?"
    ensures Parse([x, y, op]) == Ok(Seq(Char(x),
      if op == '*' as int then Star(Char(y)) else if op == '+' as int then Plus(Char(y)) else Opt(Char(y))))
  {
    hide *;
    var s := [x, y, op];
    ParseStart(s);
    StartIs();
    var s1 := State([], Frame(0, [], Eps, Char(x)), 1, false);
    var s2 := State([], Frame(0, [], Char(x), Char(y)), 1, false);
    NextChar(s, 0, Start());
    NextChar(s, 1, s1);
    StepPostfix(s, 2, s2);
    RepeatedIs(op, Char(y));
    SnocIs(Char(x), Repeated(op, Char(y)));
    AtEnd(s, State([], Frame(0, [], Char(x), Repeated(op, Char(y))), 1, false));
  }

  lemma RepeatedIs(op: byte, re: Re)
    ensures Repeated(op, re) ==
      if op == '*' as int then Star(re) else if op == '+' as int then Plus(re) else Opt(re)
    ensures !Repeated(op, re).Eps?
  {
  }

  /** An alternative reaches from one `\|`, or the beginning, to the next, or the end. */
  lemma BarReads(x: byte, y: byte, z: byte)
    requires Ordinary(x) && Ordinary(y) && Ordinary(z)
    ensures Parse([x, y, 92, '|' as int, z]) == Ok(Alt(Seq(Char(x), Char(y)), Char(z)))
    ensures Parse([x, 92, '|' as int, y, z]) == Ok(Alt(Char(x), Seq(Char(y), Char(z))))
  {
    hide *;
    StartIs();
    var s, t := [x, y, 92, 124, z], [x, 92, 124, y, z];
    var s1 := State([], Frame(0, [], Eps, Char(x)), 1, false);
    ParseStart(s);
    NextChar(s, 0, Start());
    NextChar(s, 1, s1);
    SnocIs(Char(x), Char(y));
    StepBar(s, 2, State([], Frame(0, [], Char(x), Char(y)), 1, false));
    NextChar(s, 4, State([], Frame(0, [Seq(Char(x), Char(y))], Eps, Eps), 1, true));
    AtEnd(s, State([], Frame(0, [Seq(Char(x), Char(y))], Eps, Char(z)), 1, false));
    ParseStart(t);
    NextChar(t, 0, Start());
    StepBar(t, 1, s1);
    NextChar(t, 3, State([], Frame(0, [Char(x)], Eps, Eps), 1, true));
    NextChar(t, 4, State([], Frame(0, [Char(x)], Eps, Char(y)), 1, false));
    SnocIs(Char(y), Char(z));
    AtEnd(t, State([], Frame(0, [Char(x)], Char(y), Char(z)), 1, false));
  }

  /** A group is one item for the operator behind it, and takes the first register. */
  lemma GroupReads(x: byte, y: byte)
    requires Ordinary(x) && Ordinary(y)
    ensures Parse([92, '(' as int, x, y, 92, ')' as int, '*' as int]) == Ok(Star(Group(1, Seq(Char(x), Char(y)))))
  {
    hide *;
    var s := [92, 40, x, y, 92, 41, 42];
    var outer, body := [Start().cur], Seq(Char(x), Char(y));
    StepOpen(s);
    NextChar(s, 2, State(outer, Frame(1, [], Eps, Eps), 2, true));
    NextChar(s, 3, State(outer, Frame(1, [], Eps, Char(x)), 2, false));
    SnocIs(Char(x), Char(y));
    StepClose(s, 4, State(outer, Frame(1, [], Char(x), Char(y)), 2, false));
    GroupLength(body);
    StepPostfix(s, 6, State([], Frame(0, [], Eps, Group(1, body)), 2, false));
    RepeatedIs(42, Group(1, body));
    SnocIs(Eps, Star(Group(1, body)));
    AtEnd(s, State([], Frame(0, [], Eps, Star(Group(1, body))), 2, false));
  }

  lemma GroupLength(re: Re)
    ensures Len(Group(1, re)) > 0
  {
  }

  // ----- where operators are characters -----

  /** A `^` in the middle and a `$` in the middle stand for themselves, and a postfix operator behind them
      is ignored. */
  lemma MiddleReads(x: byte, y: byte, op: byte)
    requires Ordinary(x) && Ordinary(y) && (op as char) in "*+?"
    ensures Parse([x, '^' as int, op, y]) == Ok(Seq(Seq(Char(x), Char('^' as int)), Char(y)))
    ensures Parse([x, '$' as int, op, y]) == Ok(Seq(Seq(Char(x), Char('$' as int)), Char(y)))
  {
    hide *;
    StartIs();
    var s, t := [x, 94, op, y], [x, 36, op, y];
    var s1 := State([], Frame(0, [], Eps, Char(x)), 1, false);
    ParseStart(s);
    NextChar(s, 0, Start());
    StepCaret(s, 1, s1);
    MiddleIs(s, s1, x, 94, y);
    StepPostfix(s, 2, State([], Frame(0, [], Seq(Char(x), Char(94)), Eps), 1, false));
    NextChar(s, 3, State([], Frame(0, [], Seq(Char(x), Char(94)), Eps), 1, false));
    AtEnd(s, State([], Frame(0, [], Seq(Char(x), Char(94)), Char(y)), 1, false));
    ParseStart(t);
    NextChar(t, 0, Start());
    StepDollar(t, 1, s1);
    MiddleIs(t, s1, x, 36, y);
    StepPostfix(t, 2, State([], Frame(0, [], Seq(Char(x), Char(36)), Eps), 1, false));
    NextChar(t, 3, State([], Frame(0, [], Seq(Char(x), Char(36)), Eps), 1, false));
    AtEnd(t, State([], Frame(0, [], Seq(Char(x), Char(36)), Char(y)), 1, false));
  }

  lemma MiddleIs(s: seq<byte>, st: State, x: byte, c: byte, y: byte)
    requires st == State([], Frame(0, [], Eps, Char(x)), 1, false)
    ensures Closing(st, Char(c)) == State([], Frame(0, [], Seq(Char(x), Char(c)), Eps), 1, false)
    ensures Snoc(Seq(Char(x), Char(c)), Eps) == Seq(Char(x), Char(c)) && Len(Eps) == 0
    ensures Snoc(Seq(Char(x), Char(c)), Char(y)) == Seq(Seq(Char(x), Char(c)), Char(y))
  {
  }

  /** Behind `\|` a `^` is the operator and a postfix operator is a character; in front of it a `$` is the
      operator. */
  lemma AroundBar(x: byte, y: byte, op: byte)
    requires Ordinary(x) && Ordinary(y) && (op as char) in "*+?"
    ensures Parse([x, '$' as int, 92, '|' as int, '^' as int, y])
      == Ok(Alt(Seq(Char(x), Assert(Eol)), Seq(Assert(Bol), Char(y))))
    ensures Parse([x, 92, '|' as int, op, y]) == Ok(Alt(Char(x), Seq(Char(op), Char(y))))
  {
    hide *;
    LinesAroundBar(x, y);
    PostfixBehindBar(x, y, op);
  }

  lemma LinesAroundBar(x: byte, y: byte)
    requires Ordinary(x) && Ordinary(y)
    ensures Parse([x, '$' as int, 92, '|' as int, '^' as int, y])
      == Ok(Alt(Seq(Char(x), Assert(Eol)), Seq(Assert(Bol), Char(y))))
  {
    hide *;
    StartIs();
    var s := [x, 36, 92, 124, 94, y];
    var s1, l := State([], Frame(0, [], Eps, Char(x)), 1, false), Seq(Char(x), Assert(Eol));
    var s3 := State([], Frame(0, [l], Eps, Eps), 1, true);
    ParseStart(s);
    NextChar(s, 0, Start());
    StepDollar(s, 1, s1);
    BehindIs(s1, Assert(Eol));
    SnocIs(Char(x), Assert(Eol));
    SnocIs(l, Eps);
    StepBar(s, 2, State([], Frame(0, [], l, Eps), 1, false));
    StepCaret(s, 4, s3);
    BehindIs(s3, Assert(Bol));
    SnocIs(Eps, Assert(Bol));
    SnocIs(Assert(Bol), Eps);
    NextChar(s, 5, State([], Frame(0, [l], Assert(Bol), Eps), 1, false));
    SnocIs(Assert(Bol), Char(y));
    AtEnd(s, State([], Frame(0, [l], Assert(Bol), Char(y)), 1, false));
  }

  lemma PostfixBehindBar(x: byte, y: byte, op: byte)
    requires Ordinary(x) && Ordinary(y) && (op as char) in "*+?"
    ensures Parse([x, 92, '|' as int, op, y]) == Ok(Alt(Char(x), Seq(Char(op), Char(y))))
  {
    hide *;
    StartIs();
    var t := [x, 92, 124, op, y];
    var t2 := State([], Frame(0, [Char(x)], Eps, Eps), 1, true);
    ParseStart(t);
    NextChar(t, 0, Start());
    StepBar(t, 1, State([], Frame(0, [], Eps, Char(x)), 1, false));
    StepPostfix(t, 3, t2);
    BehindIs(t2, Char(op));
    SnocIs(Eps, Char(op));
    NextChar(t, 4, State([], Frame(0, [Char(x)], Eps, Char(op)), 1, false));
    CharIs(op);
    SnocIs(Char(op), Char(y));
    AtEnd(t, State([], Frame(0, [Char(x)], Char(op), Char(y)), 1, false));
  }

  /** Inside of a group, too, `^` is the operator at the beginning and `$` at the end. */
  lemma InGroup(x: byte)
    requires Ordinary(x)
    ensures Parse([92, '(' as int, '^' as int, x, '$' as int, 92, ')' as int])
      == Ok(Group(1, Seq(Seq(Assert(Bol), Char(x)), Assert(Eol))))
  {
    hide *;
    var s := [92, 40, 94, x, 36, 92, 41];
    var outer, two := [Start().cur], Seq(Assert(Bol), Char(x));
    var s1 := State(outer, Frame(1, [], Eps, Eps), 2, true);
    var s3 := State(outer, Frame(1, [], Assert(Bol), Char(x)), 2, false);
    StepOpen(s);
    StepCaret(s, 2, s1);
    BehindIs(s1, Assert(Bol));
    SnocIs(Eps, Eps);
    SnocIs(Eps, Assert(Bol));
    SnocIs(Assert(Bol), Eps);
    NextChar(s, 3, State(outer, Frame(1, [], Assert(Bol), Eps), 2, false));
    SnocIs(Assert(Bol), Char(x));
    StepDollar(s, 4, s3);
    BehindIs(s3, Assert(Eol));
    SnocIs(two, Assert(Eol));
    SnocIs(Seq(two, Assert(Eol)), Eps);
    StepClose(s, 5, State(outer, Frame(1, [], Seq(two, Assert(Eol)), Eps), 2, false));
    SnocIs(Eps, Group(1, Seq(two, Assert(Eol))));
    AtEnd(s, State([], Frame(0, [], Eps, Group(1, Seq(two, Assert(Eol)))), 2, false));
  }

  // ----- patterns that cannot be read -----

  lemma Stops(s: seq<byte>, pos: nat, st: State, tok: Token, next: nat, e: CompileError)
    requires pos < |s| && TokenAt(s, pos) == (tok, next) && Feed(st, tok) == Err(e)
    ensures ParseFrom(s, pos, st) == Err(e)
  {
    hide TokenAt, Feed;
    ParseStep(s, pos, st);
  }

  /** A backslash or an open set at the end, a group that is not closed or not opened, register 0. */
  lemma Unreadable(x: byte)
    requires Ordinary(x)
    ensures Parse([92]) == Err(Premature) && Parse(['[' as int, x]) == Err(Premature)
    ensures Parse([92, '(' as int, x]) == Err(Parenthesis) && Parse([x, 92, ')' as int]) == Err(Parenthesis)
    ensures Parse([92, '0' as int]) == Err(BadRegister)
  {
    hide *;
    WrongTokens(x);
    ParseStart([92]);
    ParseStart([91, x]);
    ParseStart([92, 48]);
    Stops([92], 0, Start(), Wrong(Premature), 1, Premature);
    Stops([91, x], 0, Start(), Wrong(Premature), 1, Premature);
    Stops([92, 48], 0, Start(), Wrong(BadRegister), 2, BadRegister);
    var s, t := [92, 40, x], [x, 92, 41];
    StepOpen(s);
    NextChar(s, 2, State([Start().cur], Frame(1, [], Eps, Eps), 2, true));
    ParseEnd(s, State([Start().cur], Frame(1, [], Eps, Char(x)), 2, false));
    StartIs();
    ParseStart(t);
    NextChar(t, 0, Start());
    ReadsQuoted(t, 1);
    NotOpened(State([], Frame(0, [], Eps, Char(x)), 1, false));
    Stops(t, 1, State([], Frame(0, [], Eps, Char(x)), 1, false), Close, 3, Parenthesis);
  }

  lemma WrongTokens(x: byte)
    requires Ordinary(x)
    ensures TokenAt([92], 0) == (Wrong(Premature), 1) && TokenAt(['[' as int, x], 0) == (Wrong(Premature), 1)
    ensures TokenAt([92, '0' as int], 0) == (Wrong(BadRegister), 2)
    ensures forall e :: Feed(Start(), Wrong(e)) == Err(e)
  {
    RegexPrint.ReadOne([91, x], 1, -1, false, true, {});
  }

  lemma NotOpened(st: State)
    requires st.outer == []
    ensures Feed(st, Close) == Err(Parenthesis)
  {
  }

  // ----- what the matcher returns -----

  lemma AnswerReturns(pattern: seq<byte>, re: Re, text: seq<byte>, pos: nat, r: int)
    requires Parse(pattern) == Ok(re) && NoBackref(re) && Encodable(re) && pos <= |text|
    requires -2 <= r && Answer(re, text, pos, FromInt(r, pos))
    ensures Returns(pattern, text, pos, r)
  {
    hide *;
    AnswerRight(re, text, pos, FromInt(r, pos));
    GivesIntro(pattern, re, text, pos, r);
    forall x | Gives(pattern, text, pos, x) ensures x == r {
      GivesParts(pattern, re, text, pos, x);
      RightHere(re, text, pos, FromInt(x, pos));
      SameAnswer(re, text, pos, FromInt(r, pos), FromInt(x, pos));
      SameInt(pos, r, x);
    }
    ReturnsIntro(pattern, text, pos, r);
  }

  lemma SameInt(pos: nat, r: int, x: int)
    requires -2 <= r && -2 <= x && FromInt(r, pos) == FromInt(x, pos)
    ensures r == x
  {
  }

  /** `x\|y` matches either byte. */
  lemma EitherMatches(x: byte, y: byte, text: seq<byte>, pos: nat)
    requires Ordinary(x) && Ordinary(y) && pos <= |text|
    ensures Returns([x, 92, '|' as int, y], text, pos,
      if pos < |text| && (text[pos] == x || text[pos] == y) then 1 else -1)
  {
    hide *;
    EitherReads(x, y);
    TwoChars(x, y, text, pos);
    Decides([x, 92, 124, y], Alt(Char(x), Char(y)), text, pos,
      if pos < |text| && (text[pos] == x || text[pos] == y) then 1 else -1);
  }

  lemma EitherReads(x: byte, y: byte)
    requires Ordinary(x) && Ordinary(y)
    ensures Parse([x, 92, '|' as int, y]) == Ok(Alt(Char(x), Char(y)))
  {
    hide *;
    var s := [x, 92, 124, y];
    StartIs();
    ParseStart(s);
    NextChar(s, 0, Start());
    StepBar(s, 1, State([], Frame(0, [], Eps, Char(x)), 1, false));
    NextChar(s, 3, State([], Frame(0, [Char(x)], Eps, Eps), 1, true));
    AtEnd(s, State([], Frame(0, [Char(x)], Eps, Char(y)), 1, false));
  }

  lemma TwoChars(x: byte, y: byte, text: seq<byte>, pos: nat)
    requires pos <= |text|
    ensures var re := Alt(Char(x), Char(y));
      && NoBackref(re) && Encodable(re) && LoopFree(re) && Forks(re) <= MAX_FAILURES
      && forall e: nat | e <= |text| :: Matches(re, text, pos, e) <==>
        pos < |text| && (text[pos] == x || text[pos] == y) && e == pos + 1
  {
  }

  /** The pattern of one byte and a postfix operator. */
  lemma OnePostfix(x: byte, op: byte)
    requires Ordinary(x) && (op as char) in "*+?"
    ensures Parse([x, op]) == Ok(
      if op == '*' as int then Star(Char(x)) else if op == '+' as int then Plus(Char(x)) else Opt(Char(x)))
  {
    hide *;
    var s := [x, op];
    StartIs();
    ParseStart(s);
    NextChar(s, 0, Start());
    StepPostfix(s, 1, State([], Frame(0, [], Eps, Char(x)), 1, false));
    RepeatedIs(op, Char(x));
    SnocIs(Eps, Repeated(op, Char(x)));
    AtEnd(s, State([], Frame(0, [], Eps, Repeated(op, Char(x))), 1, false));
  }

  /** The run of bytes x that begins at pos. */
  function Run(x: byte, text: seq<byte>, pos: nat): (n: nat)
    requires pos <= |text|
    ensures pos + n <= |text| && (pos + n < |text| ==> text[pos + n] != x)
    ensures forall k :: pos <= k < pos + n ==> text[k] == x
    decreases |text| - pos
  {
    if pos < |text| && text[pos] == x then 1 + Run(x, text, pos + 1) else 0
  }

  /** `x*` takes all bytes x that there are. */
  lemma StarMatches(x: byte, text: seq<byte>, pos: nat)
    requires Ordinary(x) && pos <= |text|
    ensures Returns([x, '*' as int], text, pos, Run(x, text, pos))
  {
    hide *;
    OnePostfix(x, 42);
    SameRun(x, text, pos);
    RegexLoss.LoopAnswer(Exact(x), Eps, text, pos);
    BareLoop(Exact(x), text, pos, Found(pos + Run(x, text, pos)));
    CharIs(x);
    RunWithin(x, text, pos);
    SameRun(x, text, pos + Run(x, text, pos));
    AnswerReturns([x, 42], Star(Char(x)), text, pos, Run(x, text, pos));
  }

  lemma RunWithin(x: byte, text: seq<byte>, pos: nat)
    requires pos <= |text|
    ensures pos + Run(x, text, pos) <= |text|
  {
  }

  lemma {:induction false} SameRun(x: byte, text: seq<byte>, pos: nat)
    requires pos <= |text|
    ensures RunEnd(Exact(x), text, pos) == pos + Run(x, text, pos)
    ensures FromInt(Run(x, text, pos), pos) == Found(pos + Run(x, text, pos))
    ensures RegexLoss.Row(Eps) && RegexLoss.Updates(Exact(x), Eps)
    ensures RegexLoss.RowHolds(Eps, text, pos)
    decreases |text| - pos
  {
    if pos < |text| && text[pos] == x { SameRun(x, text, pos + 1); }
  }

  /** Nothing behind a pattern leaves its code as it is. */
  lemma NothingBehind(re: Re)
    ensures Final(Seq(re, Eps)) == Final(re)
  {
    hide *;
    FinalOf(re);
    FinalOf(Seq(re, Eps));
    GenIs(Seq(re, Eps));
    GenIs(Eps);
    assert Gen(re) + [] == Gen(re);
    StartsSeq(re);
  }

  lemma FinalOf(re: Re)
    ensures Final(re) == Settled(Decode(Gen(re) + [C_END]), Starts(re, 0) + {Len(re)})
  {
    hide Decode, Gen, Settled, Starts, Len;
  }

  lemma StartsSeq(re: Re)
    ensures Starts(Seq(re, Eps), 0) == Starts(re, 0) && Len(Seq(re, Eps)) == Len(re)
  {
    assert Starts(Eps, 0 + Len(re)) == {};
  }

  /** The loop in the form in which its answers are known. */
  lemma BareLoop(cl: CharClass, text: seq<byte>, pos: nat, o: Outcome)
    ensures NoBackref(Star(Atom(cl))) && Encodable(Star(Atom(cl)))
    ensures Answer(Star(Atom(cl)), text, pos, o) <==> Answer(Loop(cl, Eps), text, pos, o)
  {
    hide Final, Answers;
    NothingBehind(Star(Atom(cl)));
    assert NoBackref(Atom(cl)) && Encodable(Atom(cl));
  }

  /** Some steps and then the answer. */
  lemma StepsTo(q: Program, text: seq<byte>, c: Config, d: Config, o: Outcome)
    requires 0 <= c.pc < |q| && c.t <= |text| && Step(q, text, c) == Go(d) && Answers(q, text, d, o)
    ensures Answers(q, text, c, o)
  {
    hide Step, StopsAt;
    var e: Config, n: nat :| Reaches(q, text, d, e, n) && StopsAt(q, text, e, o);
    assert Reaches(q, text, c, e, n + 1);
  }

  lemma StopsNow(q: Program, text: seq<byte>, c: Config, o: Outcome)
    requires 0 <= c.pc < |q| && c.t <= |text| && Step(q, text, c) == Stop(o)
    ensures Answers(q, text, c, o)
  {
    hide Step;
    assert Reaches(q, text, c, c, 0);
  }

  // `x?`: one byte if it is there.

  lemma OptRuns(q: Program, x: byte, text: seq<byte>, pos: nat)
    requires |q| == 6 && q[0] == Fork(3, 5) && q[3] == Eat(Exact(x), 5) && q[5] == End && pos <= |text|
    ensures Answers(q, text, Config(0, pos, []),
      Found(if pos < |text| && text[pos] == x then pos + 1 else pos))
  {
    hide Answers, MAX_FAILURES;
    var c0, f := Config(0, pos, []), AtText(5, pos);
    var c1 := Config(3, pos, [f]);
    FirstPoint();
    assert [] + [f] == [f];
    assert Step(q, text, c0) == Go(c1);
    if pos < |text| && text[pos] == x {
      var c2 := Config(5, pos + 1, [f]);
      StopsNow(q, text, c2, Found(pos + 1));
      StepsTo(q, text, c1, c2, Found(pos + 1));
      StepsTo(q, text, c0, c1, Found(pos + 1));
    } else {
      var c2 := Config(5, pos, []);
      assert Rest([f]) == [];
      StopsNow(q, text, c2, Found(pos));
      StepsTo(q, text, c1, c2, Found(pos));
      StepsTo(q, text, c0, c1, Found(pos));
    }
  }

  lemma FirstPoint()
    ensures MAX_FAILURES > 0
  {
  }

  lemma OptCode(x: byte)
    ensures NoBackref(Opt(Char(x))) && Encodable(Opt(Char(x)))
    ensures var q := Final(Opt(Char(x))); |q| == 6 && q[0] == Fork(3, 5) && q[3] == Eat(Exact(x), 5) && q[5] == End
  {
    var re := Opt(Char(x));
    assert NoBackref(Char(x)) && Encodable(Char(x)) && Len(Char(x)) == 2;
    PristineSound(re);
    hide Pristine, Sound, AllStarts, StarUpdates;
    var p := Pristine(re);
    assert Fits(p, 0, re) && Fits(p, 3, Char(x));
  }

  /** `x?` takes one byte x if it is there, and none otherwise. */
  lemma OptMatches(x: byte, text: seq<byte>, pos: nat)
    requires Ordinary(x) && pos <= |text|
    ensures Returns([x, '?' as int], text, pos, if pos < |text| && text[pos] == x then 1 else 0)
  {
    hide Returns, Ordinary, Answers, Final, Parse, NoBackref, Encodable;
    OnePostfix(x, 63);
    OptCode(x);
    OptRuns(Final(Opt(Char(x))), x, text, pos);
    AnswerReturns([x, 63], Opt(Char(x)), text, pos, if pos < |text| && text[pos] == x then 1 else 0);
  }

  // `x+`: the loop, behind a failure jump that is not asked the first time.

  /** The settled code of `x+`. */
  ghost predicate PlusCode(q: Program, x: byte) {
    && |q| == 12 && q[0] == Dummy(6, 11) && q[3] == Fork(6, 11) && q[6] == Eat(Exact(x), 8) && q[8] == UpdateJump(6)
    && q[11] == End
  }

  lemma PlusSettled(x: byte)
    ensures NoBackref(Plus(Char(x))) && Encodable(Plus(Char(x)))
    ensures PlusCode(Final(Plus(Char(x))), x)
  {
    var re := Plus(Char(x));
    assert NoBackref(Char(x)) && Encodable(Char(x)) && Len(Char(x)) == 2;
    PristineSound(re);
    hide Pristine, Sound, StarUpdates, Disjoint;
    var p, S := Pristine(re), AllStarts(re);
    assert Fits(p, 0, re) && LoopFits(p, 3, Char(x)) && Fits(p, 6, Char(x));
    assert Starts(Char(x), 6) == {6} && S == {0, 3, 8} + {6} + {11};
    assert p[6] == Eat(Exact(x), 8) && p[8] == StarJump(3) && p[11] == End;
    PlusSimple(p, S, x);
    forall c: byte ensures !CanOpen(p, 11, RegexFirst.Char(c)) { RegexLoss.EndOpens(p, 11, c); }
    EndDisjoint(p, x);
    UpdatesBy(p, S, 8, Exact(x));
  }

  lemma PlusSimple(p: Program, S: set<int>, x: byte)
    requires |p| == 12 && p[6] == Eat(Exact(x), 8) && p[8] == StarJump(3) && S == {0, 3, 8} + {6} + {11}
    ensures SimpleLoop(p, S, 8, Exact(x))
  {
    assert EaterAt(p, 6) == 6;
    assert Straight(p, S, 6, 8);
  }

  lemma EndDisjoint(p: Program, x: byte)
    requires forall c: byte :: !CanOpen(p, 11, RegexFirst.Char(c))
    ensures Disjoint(p, 11, Exact(x))
  {
    hide CanOpen;
  }

  lemma UpdatesBy(p: Program, S: set<int>, s: int, cl: CharClass)
    requires SimpleLoop(p, S, s, cl) && !cl.Syntax? && !cl.NotSyntax? && Disjoint(p, s + 3, cl)
    ensures StarUpdates(p, S, s)
  {
    hide SimpleLoop, Disjoint;
    assert MayUpdate(p, S, s, cl);
  }

  /** From the body on, with its failure point f behind it. */
  lemma {:induction false} PlusRuns(q: Program, x: byte, text: seq<byte>, pos: nat, f: FailurePoint)
    requires PlusCode(q, x) && pos <= |text| && f == AtText(11, pos)
    ensures Answers(q, text, Config(6, pos, [f]), Found(pos + Run(x, text, pos)))
    decreases |text| - pos
  {
    hide Answers, MAX_FAILURES;
    var c, m := Config(6, pos, [f]), pos + Run(x, text, pos);
    if pos < |text| && text[pos] == x {
      var c1, c2 := Config(8, pos + 1, [f]), Config(6, pos + 1, [AtText(11, pos + 1)]);
      PlusRuns(q, x, text, pos + 1, AtText(11, pos + 1));
      assert Rest([f]) == [] && [] + [AtText(11, pos + 1)] == [AtText(11, pos + 1)];
      StepsTo(q, text, c1, c2, Found(m));
      StepsTo(q, text, c, c1, Found(m));
    } else {
      var c1 := Config(11, pos, []);
      assert Rest([f]) == [];
      StopsNow(q, text, c1, Found(pos));
      StepsTo(q, text, c, c1, Found(pos));
    }
  }

  lemma PlusStarts(q: Program, x: byte, text: seq<byte>, pos: nat)
    requires PlusCode(q, x) && pos <= |text|
    ensures var n := Run(x, text, pos); Answers(q, text, Config(0, pos, []), if n > 0 then Found(pos + n) else Fail)
  {
    hide Answers, MAX_FAILURES;
    var c, f := Config(0, pos, []), NoText(11);
    var c1 := Config(6, pos, [f]);
    FirstPoint();
    assert [] + [f] == [f] && Rest([f]) == [];
    assert Step(q, text, c) == Go(c1);
    if pos < |text| && text[pos] == x {
      var m := pos + Run(x, text, pos);
      var c2, c3 := Config(8, pos + 1, [f]), Config(6, pos + 1, [AtText(11, pos + 1)]);
      PlusRuns(q, x, text, pos + 1, AtText(11, pos + 1));
      assert [] + [AtText(11, pos + 1)] == [AtText(11, pos + 1)];
      StepsTo(q, text, c2, c3, Found(m));
      StepsTo(q, text, c1, c2, Found(m));
      StepsTo(q, text, c, c1, Found(m));
    } else {
      assert Resume([]) == Stop(Fail);
      StopsNow(q, text, c1, Fail);
      StepsTo(q, text, c, c1, Fail);
    }
  }

  /** `x+` takes all bytes x that there are, and needs one. */
  lemma PlusMatches(x: byte, text: seq<byte>, pos: nat)
    requires Ordinary(x) && pos <= |text|
    ensures Returns([x, '+' as int], text, pos, if Run(x, text, pos) > 0 then Run(x, text, pos) else -1)
  {
    hide Returns, Ordinary, Answers, Final, Parse, NoBackref, Encodable, PlusCode;
    OnePostfix(x, 43);
    PlusSettled(x);
    PlusStarts(Final(Plus(Char(x))), x, text, pos);
    AnswerReturns([x, 43], Plus(Char(x)), text, pos, if Run(x, text, pos) > 0 then Run(x, text, pos) else -1);
  }

  // ----- the bytes -----

  /** The code of `x*`, of `\w` and of `^x`, byte by byte: opcodes, displacements of 16 bits with the low-order
      byte first, and operands. */
  lemma CodeBytes(x: byte)
    ensures RegexCode.Compile(Star(Char(x))) == [11, 5, 0, 4, x, 10, 248, 255, 0]
    ensures RegexCode.Compile(Atom(Syntax(1))) == [20, 1, 0]
    ensures RegexCode.Compile(Seq(Assert(Bol), Char(x))) == [1, 4, x, 0]
  {
    assert Gen(Char(x)) == [4, x] && Gen(Assert(Bol)) == [1] && Gen(Atom(Syntax(1))) == [20, 1];
    assert LoopBytes([4, x]) == [11, 5, 0, 4, x, 10, 248, 255];
  }

  /** The code of the other operators. */
  lemma JumpBytes(x: byte, y: byte)
    ensures RegexCode.Compile(Plus(Char(x))) == [13, 3, 0, 11, 5, 0, 4, x, 10, 248, 255, 0]
    ensures RegexCode.Compile(Opt(Char(x))) == [11, 2, 0, 4, x, 0]
    ensures RegexCode.Compile(Alt(Char(x), Char(y))) == [11, 5, 0, 4, x, 9, 2, 0, 4, y, 0]
    ensures RegexCode.Compile(Group(1, Char(x))) == [6, 1, 4, x, 7, 1, 0]
  {
    assert Gen(Char(x)) == [4, x] && Gen(Char(y)) == [4, y];
    assert PlusBytes([4, x]) == [13, 3, 0, 11, 5, 0, 4, x, 10, 248, 255];
    assert OptBytes([4, x]) == [11, 2, 0, 4, x];
    assert AltBytes([4, x], [4, y]) == [11, 5, 0, 4, x, 9, 2, 0, 4, y];
    assert GroupBytes(1, [4, x]) == [6, 1, 4, x, 7, 1];
    hide Gen;
  }

  /** And of those that are one opcode, with an operand or without. */
  lemma LeafBytes(n: byte)
    ensures forall p | p in [(Eol, 2), (BegBuf, 14), (EndBuf, 15), (WordBeg, 16), (WordEnd, 17), (WordBound, 18),
      (NotWordBound, 19)] :: RegexCode.Compile(Assert(p.0)) == [p.1, 0]
    ensures RegexCode.Compile(Atom(AnyChar)) == [5, 0] && RegexCode.Compile(Atom(NotSyntax(1))) == [21, 1, 0]
    ensures RegexCode.Compile(Backref(n)) == [8, n, 0]
    ensures forall cs :: |Gen(Atom(InSet(cs)))| == 33 && Gen(Atom(InSet(cs)))[0] == 3
  {
  }
}
