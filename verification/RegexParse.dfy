/** How src/regexpr.c reads a pattern in its default syntax: the operators one after the other, and the
    operator-precedence reading that turns them into a tree. */
module RegexParse {
  import opened RegexSyntax
  import opened RegexProgram

  datatype CompileError = BadRegister | Parenthesis | Premature | TooComplex

  datatype Result<T> = Ok(value: T) | Err(error: CompileError)

  // ----- operators -----

  datatype Token =
    | Item(leaf: Re)          // a character, a class, a set, a word operator, a back-reference
    | Caret
    | Dollar(last: bool)      // last: where `$` is the end-of-line operator
    | Postfix(op: byte)       // `*`, `+` or `?`
    | Bar
    | Open
    | Close
    | Wrong(error: CompileError)

  const BACKSLASH: byte := 92
  const STAR: byte := 42
  const PLUS: byte := 43
  const QUESTION: byte := 63
  const OPENSET: byte := 91
  const CLOSESET: byte := 93
  const CARET: byte := 94
  const DOLLAR: byte := 36
  const DOT: byte := 46
  const LPAR: byte := 40
  const RPAR: byte := 41
  const VBAR: byte := 124
  const DASH: byte := 45

  /** The table regexp_quoted_ops: what the character c means behind a backslash. */
  function Quoted(c: byte): Token {
    if c == 48 then Wrong(BadRegister)
    else if 49 <= c <= 57 then Item(Backref(c - 48))
    else if c == LPAR then Open
    else if c == RPAR then Close
    else if c == VBAR then Bar
    else if c == 119 then Item(Atom(Syntax(S_WORD)))      // \w
    else if c == 87 then Item(Atom(NotSyntax(S_WORD)))    // \W
    else if c == 60 then Item(Assert(WordBeg))            // \<
    else if c == 62 then Item(Assert(WordEnd))            // \>
    else if c == 98 then Item(Assert(WordBound))          // \b
    else if c == 66 then Item(Assert(NotWordBound))       // \B
    else if c == 96 then Item(Assert(BegBuf))             // \`
    else if c == 39 then Item(Assert(EndBuf))             // \'
    else Item(Atom(Exact(c)))
  }

  /** A `$` in front of position pos is an operator at the end, in front of `\|` and in front of `\)`. */
  predicate EndsHere(regex: seq<byte>, pos: nat) {
    || pos >= |regex|
    || (pos + 1 < |regex| && regex[pos] == BACKSLASH && (regex[pos + 1] == VBAR || regex[pos + 1] == RPAR))
  }

  predicate Between(lo: int, c: byte, hi: int) {
    lo <= c <= hi
  }

  function Span(lo: int, hi: int): set<byte> {
    set c: byte | 0 <= c < 256 && Between(lo, c, hi)
  }

  datatype SetRead = SetOf(cs: set<byte>, pos: nat) | Unclosed

  /** Reads the members of a set from position i on.  prev is the character before, unless it
      ended a range; range tells that a `-` is waiting for its second end. */
  function ReadMembers(regex: seq<byte>, i: nat, prev: int, range: bool, first: bool, cs: set<byte>): SetRead
    decreases |regex| - i
  {
    if i >= |regex| then Unclosed
    else
      var ch := regex[i];
      if ch == CLOSESET && !first then SetOf(if range then cs + {DASH} else cs, i + 1)
      else if range then ReadMembers(regex, i + 1, -1, false, false, cs + Span(prev, ch))
      else if prev != -1 && ch == DASH then ReadMembers(regex, i + 1, prev, true, false, cs)
      else ReadMembers(regex, i + 1, ch, false, false, cs + {ch})
  }

  function AllBytes(): set<byte> {
    Span(0, 255)
  }

  /** Reads a set behind its `[`. */
  function ReadSet(regex: seq<byte>, i: nat): SetRead {
    if i < |regex| && regex[i] == CARET then
      var r := ReadMembers(regex, i + 1, -1, false, true, {});
      if r.Unclosed? then r else SetOf(AllBytes() - r.cs, r.pos)
    else ReadMembers(regex, i, -1, false, true, {})
  }

  lemma {:induction false} ReadForward(regex: seq<byte>, i: nat, prev: int, range: bool, first: bool, cs: set<byte>)
    ensures var r := ReadMembers(regex, i, prev, range, first, cs); r.SetOf? ==> i < r.pos <= |regex|
    decreases |regex| - i
  {
    if i < |regex| && !(regex[i] == CLOSESET && !first) {
      ReadForward(regex, i + 1, -1, false, false, cs + Span(prev, regex[i]));
      ReadForward(regex, i + 1, prev, true, false, cs);
      ReadForward(regex, i + 1, regex[i], false, false, cs + {regex[i]});
    }
  }

  /** The operator at position pos and where the next one begins. */
  function TokenAt(regex: seq<byte>, pos: nat): (r: (Token, nat))
    requires pos < |regex|
    ensures pos < r.1
  {
    var ch := regex[pos];
    if ch == BACKSLASH then
      if pos + 1 >= |regex| then (Wrong(Premature), pos + 1) else (Quoted(regex[pos + 1]), pos + 2)
    else if ch == STAR || ch == PLUS || ch == QUESTION then (Postfix(ch), pos + 1)
    else if ch == OPENSET then
      var r := ReadSet(regex, pos + 1);
      if r.Unclosed? then (Wrong(Premature), pos + 1)
      else
        assert pos < r.pos by { ReadForward(regex, pos + 1, -1, false, true, {});
          ReadForward(regex, pos + 2, -1, false, true, {}); }
        (Item(Atom(InSet(r.cs))), r.pos)
    else if ch == CARET then (Caret, pos + 1)
    else if ch == DOLLAR then (Dollar(EndsHere(regex, pos + 1)), pos + 1)
    else if ch == DOT then (Item(Atom(AnyChar)), pos + 1)
    else (Item(Atom(Exact(ch))), pos + 1)
  }

  // ----- reading by precedence -----

  const MAX_NESTING: nat := 100
  const RE_NREGS: nat := 10

  /** An open group, or the whole pattern: the alternatives that are complete, and of the current
      one what precedes its last item, and that item, to which a postfix operator applies. */
  datatype Frame = Frame(reg: byte, alts: seq<Re>, pre: Re, last: Re)

  datatype State = State(outer: seq<Frame>, cur: Frame, next: nat, begin: bool)

  function Snoc(pre: Re, last: Re): Re {
    if last.Eps? then pre else if pre.Eps? then last else Seq(pre, last)
  }

  /** Alternatives nest to the right. */
  function AltFold(alts: seq<Re>, body: Re): Re
    decreases |alts|
  {
    if alts == [] then body else AltFold(alts[..|alts| - 1], Alt(alts[|alts| - 1], body))
  }

  function Merge(f: Frame): Frame {
    Frame(f.reg, f.alts, Snoc(f.pre, f.last), Eps)
  }

  function Build(f: Frame): Re {
    AltFold(f.alts, Snoc(f.pre, f.last))
  }

  function Reduce(f: Frame): Frame {
    Frame(f.reg, [], Build(f), Eps)
  }

  /** Takes one more item; postfix operators apply to it. */
  function Shift(f: Frame, item: Re): Frame {
    Frame(f.reg, f.alts, Snoc(f.pre, f.last), item)
  }

  /** Applies a postfix operator to the last item; it is ignored where that is empty. */
  function Apply(f: Frame, op: byte): Frame {
    if Len(f.last) == 0 then f
    else f.(last := if op == QUESTION then Opt(f.last) else if op == STAR then Star(f.last) else Plus(f.last))
  }

  function Pending(frames: seq<Frame>): nat {
    if frames == [] then 0 else Pending(frames[..|frames| - 1]) + |frames[|frames| - 1].alts|
  }

  function Frames(st: State): seq<Frame> {
    st.outer + [st.cur]
  }

  function Start(): State {
    State([], Frame(0, [], Eps, Eps), 1, true)
  }

  function Feed(st: State, tok: Token): Result<State>
  {
    var f := st.cur;
    match tok
    case Item(leaf) => Ok(st.(cur := Shift(f, leaf), begin := false))
    case Caret => Ok(st.(cur := Merge(Shift(f, if st.begin then Assert(Bol) else Atom(Exact(CARET)))), begin := false))
    case Dollar(last) => Ok(st.(cur := Merge(Shift(f, if last then Assert(Eol) else Atom(Exact(DOLLAR)))),
      begin := false))
    case Postfix(op) => Ok(st.(cur := if st.begin then Shift(f, Atom(Exact(op))) else Apply(f, op), begin := false))
    case Bar =>
      if Pending(Frames(st)) >= MAX_NESTING then Err(TooComplex)
      else Ok(st.(cur := Frame(f.reg, f.alts + [Snoc(f.pre, f.last)], Eps, Eps), begin := true))
    case Open =>
      if |st.outer| >= MAX_NESTING - 1 then Err(TooComplex)
      else if st.next < RE_NREGS then Ok(State(st.outer + [Merge(f)], Frame(st.next, [], Eps, Eps), st.next + 1, true))
      else Ok(State(st.outer + [Merge(f)], Frame(0, [], Eps, Eps), st.next, true))
    case Close =>
      if st.outer == [] then Err(Parenthesis)
      else Ok(State(st.outer[..|st.outer| - 1], st.outer[|st.outer| - 1].(last := Group(f.reg, Build(f))), st.next,
        false))
    case Wrong(e) => Err(e)
  }

  function Finish(st: State): Result<Re> {
    if st.outer != [] then Err(Parenthesis) else Ok(Build(st.cur))
  }

  function ParseFrom(regex: seq<byte>, pos: nat, st: State): Result<Re>
    decreases |regex| - pos
  {
    if pos >= |regex| then Finish(st)
    else
      var (tok, pos') := TokenAt(regex, pos);
      assert pos < pos';
      match Feed(st, tok)
      case Err(e) => Err(e)
      case Ok(st') => ParseFrom(regex, pos', st')
  }

  /** The pattern that a regular expression stands for, or why it stands for none. */
  function Parse(regex: seq<byte>): Result<Re> {
    ParseFrom(regex, 0, Start())
  }

  lemma ParseStart(regex: seq<byte>)
    ensures Parse(regex) == ParseFrom(regex, 0, Start()) && Start().cur.pre.Eps?
  {
    hide ParseFrom;
  }

  lemma ParseStep(regex: seq<byte>, pos: nat, st: State)
    requires pos < |regex|
    ensures var (tok, next) := TokenAt(regex, pos);
            ParseFrom(regex, pos, st) == if Feed(st, tok).Err? then Err(Feed(st, tok).error)
              else ParseFrom(regex, next, Feed(st, tok).value)
  {
    hide TokenAt, Feed;
  }

  lemma ParseEnd(regex: seq<byte>, st: State)
    ensures ParseFrom(regex, |regex|, st) == Finish(st)
    ensures Finish(st) == if st.outer != [] then Err(Parenthesis) else Ok(Build(st.cur))
  {
    hide Build;
  }
}
