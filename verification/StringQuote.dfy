/** quotemeta (src/string.c): the quoted form of a string is a pattern for just that string. */
module StringQuote {
  import opened RegexSyntax
  import opened RegexProgram
  import opened RegexStructure
  import opened RegexBacktrack
  import opened RegexRuns
  import opened RegexCode
  import opened RegexMatcher
  import opened RegexBuffer
  import opened RegexPrint
  import RegexParse

  /** The quoted form: a backslash goes in front of each special character. */
  function Quote(s: seq<byte>): seq<byte> {
    if s == [] then [] else Quote(s[..|s| - 1]) + PrintClass(Exact(s[|s| - 1]))
  }

  lemma QuoteSnoc(s: seq<byte>, c: byte)
    ensures Quote(s + [c]) == Quote(s) + PrintClass(Exact(c))
  {
    assert (s + [c])[..|s|] == s;
    hide PrintClass;
  }

  /** Quoting goes byte by byte, and puts a backslash (92) in front of eight characters only. */
  lemma QuotedText(s: seq<byte>, c: byte)
    ensures Quote([]) == []
    ensures Quote(s + [c]) == Quote(s) + (if (c as char) in ".\\+*?[^$" then [92, c] else [c])
  {
    QuoteSnoc(s, c);
    SpecialIs(c);
  }

  lemma SpecialIs(c: byte)
    ensures IsSpecial(c) <==> (c as char) in ".\\+*?[^$"
  {
  }

  /** QuoteMeta: fills the new string with two running indices. */
  method QuoteMeta(s: seq<byte>) returns (str: array<byte>, y: nat)
    ensures y < str.Length && str[..y] == Quote(s) && str[y] == 0
  {
    hide *;
    str := new byte[2 * |s| + 1];
    var x: nat;
    x, y := 0, 0;
    QuoteNone(s, str[..]);
    assert str[..y] == str[..][..y];
    while x < |s|
      invariant x <= |s| && y <= 2 * x && str[..y] == Quote(s[..x])
    {
      ghost var done, y0 := str[..y], y;
      str[y] := s[x];
      var c := str[y] as char;
      SpecialIs(str[y]);
      if c == '.' || c == '\\' || c == '+' || c == '*' || c == '?' || c == '[' || c == '^' || c == '$' {
        str[y], str[y + 1] := RegexParse.BACKSLASH, s[x];
        y := y + 1;
      }
      x, y := x + 1, y + 1;
      QuoteMore(s, x - 1, done, str[..], y0);
      assert str[..y] == str[..][..y];
    }
    assert s[..x] == s;
    ghost var done := str[..y];
    str[y] := 0;
    assert str[..y] == done;
  }

  lemma QuoteNone(s: seq<byte>, str: seq<byte>)
    ensures str[..0] == Quote(s[..0])
  {
  }

  /** One more byte of s has been written at y of str. */
  lemma QuoteMore(s: seq<byte>, x: nat, done: seq<byte>, str: seq<byte>, y: nat)
    requires x < |s| && done == Quote(s[..x]) && |done| == y && y + 1 < |str| + (if IsSpecial(s[x]) then 0 else 1)
      && str[..y] == done
    requires if IsSpecial(s[x]) then str[y] == RegexParse.BACKSLASH && str[y + 1] == s[x] else str[y] == s[x]
    ensures str[..if IsSpecial(s[x]) then y + 2 else y + 1] == Quote(s[..x + 1])
  {
    QuoteSnoc(s[..x], s[x]);
    assert s[..x + 1] == s[..x] + [s[x]];
    var more := if IsSpecial(s[x]) then [RegexParse.BACKSLASH, s[x]] else [s[x]];
    assert str[..y + |more|] == done + more;
    hide Quote;
  }

  /** The pattern that matches just s. */
  function Literal(s: seq<byte>): Re {
    if s == [] then Eps else RegexParse.Snoc(Literal(s[..|s| - 1]), Atom(Exact(s[|s| - 1])))
  }

  lemma {:induction false} LiteralPrints(s: seq<byte>)
    ensures Print(Literal(s)) == Quote(s)
    ensures (s == [] <==> Literal(s).Eps?) && (|s| == 1 ==> Literal(s).Atom?) && (|s| > 1 ==> Literal(s).Seq?)
  {
    if s != [] { LiteralPrints(s[..|s| - 1]); }
    hide PrintClass;
  }

  lemma {:induction false} LiteralPrintable(s: seq<byte>, n: nat, depth: nat, pending: nat)
    ensures IsCat(Literal(s)) && IsAlt(Literal(s)) && !EndsEol(Literal(s))
    ensures NextReg(Literal(s), n) == n && Numbered(Literal(s), n) && Shallow(Literal(s), depth, pending)
  {
    LiteralPrints(s);
    if s != [] { LiteralPrintable(s[..|s| - 1], n, depth, pending); }
  }

  /** Quoting makes a literal. */
  lemma QuoteParses(s: seq<byte>)
    ensures RegexParse.Parse(Quote(s)) == RegexParse.Ok(Literal(s))
  {
    hide *;
    LiteralPrints(s);
    LiteralPrintable(s, 1, 0, 0);
    IsPrintable(Literal(s));
    RoundTrip(Literal(s));
  }

  lemma IsPrintable(re: Re)
    requires IsAlt(re) && Numbered(re, 1) && Shallow(re, 0, 0)
    ensures Printable(re)
  {
    hide IsAlt, Numbered, Shallow;
  }

  /** The code of the quoted string: one exact-character instruction for each of its bytes, then the end. */
  lemma {:induction false} LiteralCode(s: seq<byte>)
    ensures |Gen(Literal(s))| == 2 * |s|
    ensures forall k :: 0 <= k < |s| ==> Gen(Literal(s))[2 * k] == C_EXACT && Gen(Literal(s))[2 * k + 1] == s[k]
  {
    if s != [] {
      var init := s[..|s| - 1];
      LiteralCode(init);
      LiteralGen(s);
    }
    hide Gen, Literal;
  }

  lemma LiteralGen(s: seq<byte>)
    ensures s != [] ==> Gen(Literal(s)) == Gen(Literal(s[..|s| - 1])) + [C_EXACT, s[|s| - 1]]
    ensures s == [] ==> Gen(Literal(s)) == []
  {
    GenIs(Literal(s));
    assert Gen(Atom(Exact(1))) == [C_EXACT, 1];
  }

  /** The language of the quoted string. */
  lemma {:induction false} LiteralMatches(s: seq<byte>, text: seq<byte>, i: nat, j: nat)
    requires i <= |text| && j <= |text|
    ensures Matches(Literal(s), text, i, j) <==> j == i + |s| && text[i..j] == s
  {
    hide *;
    if |s| > 1 {
      var init, c := s[..|s| - 1], s[|s| - 1];
      LiteralSeq(s);
      SnocMatches(Literal(init), c, text, i, j);
      if j > i { LiteralMatches(init, text, i, j - 1); }
      if j == i + |s| { assert text[i..j] == text[i..j - 1] + [text[j - 1]] && s == init + [c]; }
    } else {
      LiteralShort(s, text, i, j);
    }
  }

  lemma LiteralSeq(s: seq<byte>)
    requires |s| > 1
    ensures Literal(s) == Seq(Literal(s[..|s| - 1]), Atom(Exact(s[|s| - 1])))
  {
    LiteralPrints(s[..|s| - 1]);
  }

  lemma LiteralShort(s: seq<byte>, text: seq<byte>, i: nat, j: nat)
    requires |s| <= 1 && i <= |text| && j <= |text|
    ensures Matches(Literal(s), text, i, j) <==> j == i + |s| && text[i..j] == s
  {
    assert Literal(s) == if s == [] then Eps else Atom(Exact(s[0]));
  }

  lemma SnocMatches(l: Re, c: byte, text: seq<byte>, i: nat, j: nat)
    requires i <= |text| && j <= |text|
    ensures Matches(Seq(l, Atom(Exact(c))), text, i, j) <==> i < j && Matches(l, text, i, j - 1) && text[j - 1] == c
  {
    var r := Atom(Exact(c));
    if Matches(Seq(l, r), text, i, j) { var k := SeqSplit(l, r, text, i, j); }
    if i < j && Matches(l, text, i, j - 1) && text[j - 1] == c { assert Matches(r, text, j - 1, j); }
  }

  lemma SeqSplit(l: Re, r: Re, text: seq<byte>, i: nat, j: nat) returns (k: nat)
    requires i <= |text| && j <= |text| && Matches(Seq(l, r), text, i, j)
    ensures i <= k <= j && Matches(l, text, i, k) && Matches(r, text, k, j)
  {
    k :| i <= k <= j && Matches(l, text, i, k) && Matches(r, text, k, j);
  }

  // ----- matching a literal never runs out of failure points -----

  /** No instruction at pcs pushes a failure point. */
  ghost predicate NoPush(p: Program, pcs: set<int>) {
    forall pc :: pc in pcs && 0 <= pc < |p| ==> !p[pc].Fork? && !p[pc].Dummy?
  }

  lemma {:induction false} LiteralPushes(p: Program, s: seq<byte>)
    requires Fits(p, 0, Literal(s))
    ensures NoPush(p, Starts(Literal(s), 0))
  {
    LiteralPrints(s);
    if |s| > 1 {
      var init, c := s[..|s| - 1], s[|s| - 1];
      LiteralPrints(init);
      SeqLayout(p, 0, Literal(init), Atom(Exact(c)));
      LiteralPushes(p, init);
    }
    hide Len;
  }

  lemma {:induction false} NoOverflow(p: Program, S: set<int>, text: seq<byte>, pc: int, t: nat, room: nat)
    requires Sound(p, S) && pc in S && t <= |text| && NoPush(p, S)
    ensures !Backtrack(p, S, text, pc, t, room).Overflow?
    decreases |text| - t, if 0 <= pc < |p| then Rank(p, pc) else 0
  {
    hide Sound, LocalOk;
    RankFalls(p, S, pc);
    var i := p[pc];
    if !i.End? && i.Passes(text, t) { NoOverflow(p, S, text, i.next, t + i.Width(), room); }
  }

  lemma LiteralPlain(s: seq<byte>, text: seq<byte>, pos: nat)
    requires pos <= |text|
    ensures !Overflows(Literal(s), text, pos)
  {
    hide Compiled, Encodable, NoBackref, Pristine, Literal, Starts, Sound, Fits;
    var re := Literal(s);
    LiteralSimple(s);
    PristineSound(re);
    assert Fits(Pristine(re), 0, re) && NoPush(Pristine(re), {Len(re)}) by { CompiledParts(Pristine(re), re); }
    LiteralPushes(Pristine(re), s);
    NoOverflow(Pristine(re), AllStarts(re), text, 0, pos, MAX_FAILURES);
  }

  lemma CompiledParts(p: Program, re: Re)
    requires Compiled(p, re)
    ensures Fits(p, 0, re) && NoPush(p, {Len(re)})
  {
    hide Fits;
  }

  lemma {:induction false} LiteralSimple(s: seq<byte>)
    ensures NoBackref(Literal(s)) && Encodable(Literal(s)) && OnlyEol(Literal(s))
  {
    if s != [] { LiteralSimple(s[..|s| - 1]); }
  }

  /** Whatever the matcher answers for the quoted form of s, it is the length of s where s is, and
      -1 where it is not. */
  lemma QuoteMatches(s: seq<byte>, text: seq<byte>, pos: nat, r: int)
    requires pos <= |text| && Right(Literal(s), text, pos, FromInt(r, pos)) && -2 <= r
    ensures r == if pos + |s| <= |text| && text[pos..pos + |s|] == s then |s| else -1
  {
    hide *;
    LiteralSimple(s);
    OnlyEolSteady(Literal(s));
    LiteralPlain(s, text, pos);
    FoundHere(Literal(s), text, pos, r);
    if r >= 0 { LiteralMatches(s, text, pos, pos + r); }
    LiteralAt(s, text, pos);
  }

  /** Where failure points cannot run out, the answer tells whether there is a match. */
  lemma FoundHere(re: Re, text: seq<byte>, pos: nat, r: int)
    requires Right(re, text, pos, FromInt(r, pos)) && -2 <= r && Steady(re) && !Overflows(re, text, pos)
    ensures r == -1 <==> !MatchesAt(re, text, pos)
    ensures r != -2 && (r >= 0 ==> pos + r <= |text| && Matches(re, text, pos, pos + r))
  {
    hide Compiled, NoBackref, Pristine, PlainMatch, Matches, Steady, Overflows, Answer;
    RightHere(re, text, pos, FromInt(r, pos));
  }

  lemma LiteralAt(s: seq<byte>, text: seq<byte>, pos: nat)
    requires pos <= |text|
    ensures MatchesAt(Literal(s), text, pos) <==> pos + |s| <= |text| && text[pos..pos + |s|] == s
  {
    hide Literal, Matches;
    forall e: nat | e <= |text| ensures Matches(Literal(s), text, pos, e) <==> e == pos + |s| && text[pos..e] == s {
      LiteralMatches(s, text, pos, e);
    }
  }
}
