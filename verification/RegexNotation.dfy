/** What patterns match as they are written: the notation of src/regexpr.c, character by character. */
module RegexNotation {
  import opened RegexSyntax
  import opened RegexProgram
  import opened RegexStructure
  import opened RegexBacktrack
  import opened RegexFirst
  import opened RegexRuns
  import opened RegexCode
  import opened RegexMatcher
  import opened RegexBuffer
  import opened RegexParse
  import opened RegexTables
  import opened RegexRoom
  import opened RegexTail
  import opened RegexWhole
  import RegexPrint

  /** The pattern as it is written is compiled, and r may be what matching it at pos returns. */
  ghost predicate Gives(pattern: seq<byte>, text: seq<byte>, pos: nat, r: int) {
    && Parse(pattern).Ok? && NoBackref(Parse(pattern).value) && Encodable(Parse(pattern).value)
    && -2 <= r && Right(Parse(pattern).value, text, pos, FromInt(r, pos))
  }

  /** Matching the pattern at pos returns x, and nothing else. */
  ghost predicate Returns(pattern: seq<byte>, text: seq<byte>, pos: nat, x: int) {
    forall r :: Gives(pattern, text, pos, r) <==> r == x
  }

  /** re_compile_pattern on the pattern as it is written, and re_match at pos. */
  method MatchWritten(pattern: seq<byte>, text: seq<byte>, pos: nat) returns (ok: bool, r: int)
    requires Parse(pattern).Ok? ==> NoBackref(Parse(pattern).value) && Encodable(Parse(pattern).value)
    requires pos <= |text|
    ensures ok <==> Parse(pattern).Ok?
    ensures ok ==> Gives(pattern, text, pos, r)
  {
    hide *;
    var buffer := new PatternBuffer();
    var error;
    ok, error := buffer.Compile(pattern);
    r := -1;
    if ok {
      assert buffer.Ready() by { buffer.MeansValid(); }
      r := buffer.Match(text, pos);
      GivesIntro(pattern, buffer.re, text, pos, r);
    }
  }

  // ----- patterns without loops -----

  lemma FreeSteady(re: Re)
    requires NoBackref(re) && Encodable(re) && LoopFree(re)
    ensures Steady(re)
  {
    hide *;
    PristineSound(re);
    CompiledFits(Pristine(re), re);
    NoStars(Pristine(re), 0, re);
    AllStartsIs(re);
    NoneUpdated(Pristine(re), Starts(re, 0), Len(re), AllStarts(re));
    SteadyIs(re);
  }

  lemma CompiledFits(p: Program, re: Re)
    requires Compiled(p, re)
    ensures Fits(p, 0, re) && 0 <= Len(re) < |p| && p[Len(re)] == End
  {
    hide Fits, Len;
  }

  lemma NoneUpdated(p: Program, pcs: set<int>, end: int, S: set<int>)
    requires StarsNone(p, pcs) && 0 <= end < |p| && p[end] == End && S == pcs + {end}
    ensures Harmless(p, S)
  {
    hide Straight, EaterAt, Disjoint, Tied;
  }

  /** The pattern reads as re, which has no loops and matches at pos up to pos + x only, or nowhere if x is -1. */
  lemma Decides(pattern: seq<byte>, re: Re, text: seq<byte>, pos: nat, x: int)
    requires Parse(pattern) == Ok(re) && NoBackref(re) && Encodable(re) && LoopFree(re) && Forks(re) <= MAX_FAILURES
    requires pos <= |text| && -1 <= x
    requires forall e: nat | e <= |text| :: Matches(re, text, pos, e) <==> x >= 0 && e == pos + x
    requires pos + x <= |text|
    ensures Returns(pattern, text, pos, x)
  {
    hide *;
    FreeSteady(re);
    FreeConsumes(re);
    FreePerChar(re);
    RoomyIs(re, |text| - pos);
    if x >= 0 { assert Matches(re, text, pos, pos + x); }
    forall r | Gives(pattern, text, pos, r) ensures r == x {
      GivesParts(pattern, re, text, pos, r);
      MatchMeans(re, text, pos, r);
    }
    var o := HasAnswer(re, text, pos);
    AnswerRight(re, text, pos, o);
    var r := OutcomeInt(re, text, pos, o);
    GivesIntro(pattern, re, text, pos, r);
    ReturnsIntro(pattern, text, pos, x);
  }

  lemma RoomyIs(re: Re, n: nat)
    ensures Roomy(re, n) <==> LoopsConsume(re) && Forks(re) + PerChar(re) * n <= MAX_FAILURES
  {
    hide LoopsConsume, Forks, PerChar;
  }

  lemma GivesParts(pattern: seq<byte>, re: Re, text: seq<byte>, pos: nat, r: int)
    requires Parse(pattern) == Ok(re) && Gives(pattern, text, pos, r)
    ensures NoBackref(re) && Encodable(re) && -2 <= r && Right(re, text, pos, FromInt(r, pos))
  {
    hide Parse, NoBackref, Encodable, Right, FromInt;
  }

  lemma GivesIntro(pattern: seq<byte>, re: Re, text: seq<byte>, pos: nat, r: int)
    requires Parse(pattern) == Ok(re) && NoBackref(re) && Encodable(re)
    requires -2 <= r && Right(re, text, pos, FromInt(r, pos))
    ensures Gives(pattern, text, pos, r)
  {
    hide Parse, NoBackref, Encodable, Right, FromInt;
  }

  lemma ReturnsIntro(pattern: seq<byte>, text: seq<byte>, pos: nat, x: int)
    requires (forall r :: Gives(pattern, text, pos, r) ==> r == x) && exists r :: Gives(pattern, text, pos, r)
    ensures Returns(pattern, text, pos, x)
  {
    hide Gives;
  }

  lemma OutcomeInt(re: Re, text: seq<byte>, pos: nat, o: Outcome) returns (r: int)
    requires Right(re, text, pos, o)
    ensures -2 <= r && FromInt(r, pos) == o
  {
    if o.Found? { FoundInt(re, text, pos, o.end); }
    hide Right;
    r := match o case Found(e) => e - pos case Fail => -1 case Overflow => -2;
  }

  // ----- one character -----

  /** A pattern that is one operator for an item. */
  lemma OneItem(pattern: seq<byte>, leaf: Re)
    requires pattern != [] && TokenAt(pattern, 0) == (Item(leaf), |pattern|) && !leaf.Eps?
    ensures Parse(pattern) == Ok(leaf)
  {
    hide TokenAt;
    var st := Start().(cur := Frame(0, [], Eps, leaf), begin := false);
    assert Feed(Start(), Item(leaf)) == Ok(st);
    ParseStep(pattern, 0, Start());
    ParseEnd(pattern, st);
  }

  lemma OneClass(pattern: seq<byte>, cl: CharClass, text: seq<byte>, pos: nat)
    requires Parse(pattern) == Ok(Atom(cl)) && pos <= |text|
    ensures Returns(pattern, text, pos, if pos < |text| && Accepts(cl, text[pos]) then 1 else -1)
  {
    hide Parse, Returns, Accepts;
    Decides(pattern, Atom(cl), text, pos, if pos < |text| && Accepts(cl, text[pos]) then 1 else -1);
  }

  /** Every byte other than these four stands for itself, a postfix operator too where nothing precedes it. */
  lemma PlainCharacter(c: byte, text: seq<byte>, pos: nat)
    requires (c as char) !in "\\[^$." && pos <= |text|
    ensures Returns([c], text, pos, if pos < |text| && text[pos] == c then 1 else -1)
  {
    hide Returns;
    assert Parse([c]) == Ok(Atom(Exact(c))) by {
      if c == STAR || c == PLUS || c == QUESTION {
        var st := Start().(cur := Frame(0, [], Eps, Atom(Exact(c))), begin := false);
        assert Feed(Start(), Postfix(c)) == Ok(st);
        ParseStep([c], 0, Start());
        ParseEnd([c], st);
      } else {
        OneItem([c], Atom(Exact(c)));
      }
    }
    OneClass([c], Exact(c), text, pos);
  }

  /** Behind a backslash, too, most bytes stand for themselves. */
  lemma QuotedCharacter(c: byte, text: seq<byte>, pos: nat)
    requires (c as char) !in "0123456789()|wW<>bB`'" && pos <= |text|
    ensures Returns([92, c], text, pos, if pos < |text| && text[pos] == c then 1 else -1)
  {
    hide Returns;
    OneItem([92, c], Atom(Exact(c)));
    OneClass([92, c], Exact(c), text, pos);
  }

  /** A dot matches every byte but the newline. */
  lemma AnyCharacter(text: seq<byte>, pos: nat)
    requires pos <= |text|
    ensures Returns(['.' as int], text, pos, if pos < |text| && text[pos] != '\n' as int then 1 else -1)
  {
    hide Returns;
    OneItem([46], Atom(AnyChar));
    OneClass([46], AnyChar, text, pos);
  }

  /** `\w` matches the 62 letters and digits, and `\W` every other byte. */
  lemma WordCharacter(text: seq<byte>, pos: nat)
    requires pos < |text|
    ensures var c := text[pos] as char;
      var word := c in "abcdefghijklmnopqrstuvwxyz" || c in "ABCDEFGHIJKLMNOPQRSTUVWXYZ" || c in "0123456789";
      && Returns([92, 'w' as int], text, pos, if word then 1 else -1)
      && Returns([92, 'W' as int], text, pos, if word then -1 else 1)
  {
    hide Returns;
    WordCharacters(text[pos]);
    OneItem([92, 119], Atom(Syntax(S_WORD)));
    OneItem([92, 87], Atom(NotSyntax(S_WORD)));
    OneClass([92, 119], Syntax(S_WORD), text, pos);
    OneClass([92, 87], NotSyntax(S_WORD), text, pos);
  }

  // ----- operators that match the empty text -----

  lemma OneTest(pattern: seq<byte>, a: Assertion, text: seq<byte>, pos: nat)
    requires Parse(pattern) == Ok(Assert(a)) && pos <= |text|
    ensures Returns(pattern, text, pos, if Holds(a, text, pos) then 0 else -1)
  {
    hide Parse, Returns, Holds;
    Decides(pattern, Assert(a), text, pos, if Holds(a, text, pos) then 0 else -1);
  }

  lemma CaretReads()
    ensures Parse(['^' as int]) == Ok(Assert(Bol))
  {
    var st := Start().(cur := Frame(0, [], Assert(Bol), Eps), begin := false);
    assert Feed(Start(), Caret) == Ok(st);
    ParseStep([94], 0, Start());
    ParseEnd([94], st);
  }

  lemma DollarReads()
    ensures Parse(['$' as int]) == Ok(Assert(Eol))
  {
    var st := Start().(cur := Frame(0, [], Assert(Eol), Eps), begin := false);
    assert Feed(Start(), Dollar(true)) == Ok(st);
    ParseStep([36], 0, Start());
    ParseEnd([36], st);
  }

  /** Where the four operators match that stand for the ends of lines and of the text. */
  lemma LineOperators(text: seq<byte>, pos: nat)
    requires pos <= |text|
    ensures Returns(['^' as int], text, pos, if pos == 0 || text[pos - 1] == '\n' as int then 0 else -1)
    ensures Returns(['$' as int], text, pos, if pos == |text| || text[pos] == '\n' as int then 0 else -1)
    ensures Returns([92, '`' as int], text, pos, if pos == 0 then 0 else -1)
    ensures Returns([92, '\'' as int], text, pos, if pos == |text| then 0 else -1)
  {
    hide Returns;
    CaretReads();
    DollarReads();
    OneItem([92, 96], Assert(BegBuf));
    OneItem([92, 39], Assert(EndBuf));
    OneTest([94], Bol, text, pos);
    OneTest([36], Eol, text, pos);
    OneTest([92, 96], BegBuf, text, pos);
    OneTest([92, 39], EndBuf, text, pos);
  }

  /** There is a word character in front of pos. */
  predicate WordBefore(text: seq<byte>, pos: nat)
    requires pos <= |text|
  {
    pos > 0 && IsWordChar(text[pos - 1] as char)
  }

  predicate WordAfter(text: seq<byte>, pos: nat)
    requires pos <= |text|
  {
    pos < |text| && IsWordChar(text[pos] as char)
  }

  /** Where the four operators match that have to do with words: both ends of the text count as boundaries,
      with or without a word there. */
  lemma WordOperators(text: seq<byte>, pos: nat)
    requires pos <= |text|
    ensures Returns([92, '<' as int], text, pos, if WordAfter(text, pos) && !WordBefore(text, pos) then 0 else -1)
    ensures Returns([92, '>' as int], text, pos, if WordBefore(text, pos) && !WordAfter(text, pos) then 0 else -1)
    ensures Returns([92, 'b' as int], text, pos,
      if pos == 0 || pos == |text| || WordBefore(text, pos) != WordAfter(text, pos) then 0 else -1)
    ensures Returns([92, 'B' as int], text, pos,
      if pos == 0 || pos == |text| || WordBefore(text, pos) != WordAfter(text, pos) then -1 else 0)
  {
    hide Returns, IsWord, IsWordChar;
    if pos > 0 { SyntaxIs(text[pos - 1]); }
    if pos < |text| { SyntaxIs(text[pos]); }
    OneItem([92, 60], Assert(WordBeg));
    OneItem([92, 62], Assert(WordEnd));
    OneItem([92, 98], Assert(WordBound));
    OneItem([92, 66], Assert(NotWordBound));
    OneTest([92, 60], WordBeg, text, pos);
    OneTest([92, 62], WordEnd, text, pos);
    OneTest([92, 98], WordBound, text, pos);
    OneTest([92, 66], NotWordBound, text, pos);
  }

  // ----- sets -----

  /** Wherever it stands in a set, `lo-hi` adds the bytes from lo to hi, and lo itself. */
  lemma RangeAdds(s: seq<byte>, i: nat, prev: int, first: bool, cs: set<byte>, lo: byte, hi: byte)
      returns (range: set<byte>)
    requires i + 3 <= |s| && s[i] == lo && s[i + 1] == '-' as int && s[i + 2] == hi
    requires (lo != ']' as int || first) && (lo != '-' as int || prev == -1) && hi != ']' as int
    ensures forall c: byte :: c in range <==> lo <= c <= hi || c == lo
    ensures ReadMembers(s, i, prev, false, first, cs) == ReadMembers(s, i + 3, -1, false, false, cs + range)
  {
    hide ReadMembers;
    RegexPrint.ReadOne(s, i, prev, false, first, cs);
    RegexPrint.ReadOne(s, i + 1, lo, false, false, cs + {lo});
    RegexPrint.ReadOne(s, i + 2, lo, true, false, cs + {lo});
    range := {lo} + Span(lo, hi);
    assert cs + {lo} + Span(lo, hi) == cs + range;
  }

  lemma SetCloses(s: seq<byte>, i: nat, prev: int, cs: set<byte>)
    requires i < |s| && s[i] == ']' as int
    ensures ReadMembers(s, i, prev, false, false, cs) == SetOf(cs, i + 1)
  {
  }

  /** A set of one range; hi is not `]`, and without a `^` in front lo is not `^`. */
  lemma RangeReads(lo: byte, hi: byte)
    requires hi != ']' as int
    ensures var r := ReadSet([lo, '-' as int, hi, ']' as int], 0);
      lo != '^' as int ==> r.SetOf? && r.pos == 4 && forall c: byte :: c in r.cs <==> lo <= c <= hi || c == lo
    ensures var r := ReadSet(['^' as int, lo, '-' as int, hi, ']' as int], 0);
      r.SetOf? && r.pos == 5 && forall c: byte :: c in r.cs <==> !(lo <= c <= hi || c == lo)
  {
    hide ReadMembers;
    var s: seq<byte>, t: seq<byte> := [lo, 45, hi, 93], [94, lo, 45, hi, 93];
    var x := RangeAdds(s, 0, -1, true, {}, lo, hi);
    SetCloses(s, 3, -1, {} + x);
    var y := RangeAdds(t, 1, -1, true, {}, lo, hi);
    SetCloses(t, 4, -1, {} + y);
  }

  lemma OneSet(pattern: seq<byte>, cs: set<byte>, text: seq<byte>, pos: nat)
    requires |pattern| > 1 && pattern[0] == '[' as int && ReadSet(pattern, 1) == SetOf(cs, |pattern|) && pos <= |text|
    ensures Returns(pattern, text, pos, if pos < |text| && text[pos] in cs then 1 else -1)
  {
    hide Returns, ReadSet;
    OneItem(pattern, Atom(InSet(cs)));
    OneClass(pattern, InSet(cs), text, pos);
  }

  /** `[lo-hi]` matches the bytes from lo to hi, and lo; hi is not `]`, and lo is not `^`. */
  lemma RangeMatches(lo: byte, hi: byte, text: seq<byte>, pos: nat)
    requires lo != '^' as int && hi != ']' as int && pos < |text|
    ensures Returns(['[' as int, lo, '-' as int, hi, ']' as int], text, pos,
      if lo <= text[pos] <= hi || text[pos] == lo then 1 else -1)
  {
    hide Returns, ReadMembers;
    var s: seq<byte> := [91, lo, 45, hi, 93];
    var x := RangeAdds(s, 1, -1, true, {}, lo, hi);
    SetCloses(s, 4, -1, {} + x);
    OneSet(s, {} + x, text, pos);
  }

  /** `[^lo-hi]` matches all others, newlines too. */
  lemma ComplementMatches(lo: byte, hi: byte, text: seq<byte>, pos: nat)
    requires hi != ']' as int && pos < |text|
    ensures Returns(['[' as int, '^' as int, lo, '-' as int, hi, ']' as int], text, pos,
      if lo <= text[pos] <= hi || text[pos] == lo then -1 else 1)
  {
    hide Returns, ReadMembers;
    var s: seq<byte> := [91, 94, lo, 45, hi, 93];
    var x := RangeAdds(s, 2, -1, true, {}, lo, hi);
    SetCloses(s, 5, -1, {} + x);
    OneSet(s, AllBytes() - ({} + x), text, pos);
  }

  /** `[xlo-hi]`, a range behind another member, and `[xlo-hi-]`, with a `-` at the end that stands for itself. */
  lemma RangeBehind(x: byte, lo: byte, hi: byte, text: seq<byte>, pos: nat)
    requires x != '^' as int && lo != ']' as int && lo != '-' as int && hi != ']' as int && pos < |text|
    ensures Returns(['[' as int, x, lo, '-' as int, hi, ']' as int], text, pos,
      if text[pos] == x || lo <= text[pos] <= hi || text[pos] == lo then 1 else -1)
    ensures Returns(['[' as int, x, lo, '-' as int, hi, '-' as int, ']' as int], text, pos,
      if text[pos] == x || lo <= text[pos] <= hi || text[pos] == lo || text[pos] == '-' as int then 1 else -1)
  {
    hide Returns, ReadMembers;
    var s: seq<byte>, t: seq<byte> := [91, x, lo, 45, hi, 93], [91, x, lo, 45, hi, 45, 93];
    RegexPrint.ReadOne(s, 1, -1, false, true, {});
    RegexPrint.ReadOne(t, 1, -1, false, true, {});
    var y := RangeAdds(s, 2, x, false, {} + {x}, lo, hi);
    SetCloses(s, 5, -1, {} + {x} + y);
    OneSet(s, {} + {x} + y, text, pos);
    var z := RangeAdds(t, 2, x, false, {} + {x}, lo, hi);
    RegexPrint.ReadOne(t, 5, -1, false, false, {} + {x} + z);
    SetCloses(t, 6, 45, {} + {x} + z + {45});
    OneSet(t, {} + {x} + z + {45}, text, pos);
  }
}
