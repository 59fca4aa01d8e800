/** Writing patterns: every pattern that can be written at all is read back as itself. */
module RegexPrint {
  import opened RegexSyntax
  import opened RegexProgram
  import opened RegexParse

  // ----- sets -----

  /** The members of cs from `from` on that mean themselves wherever they stand in a set. */
  function Singles(cs: set<byte>, from: nat): (s: seq<byte>)
    requires from <= 256
    decreases 256 - from
  {
    if from == 256 then []
    else if from in cs && from != CLOSESET && from != CARET && from != DASH then [from as byte] + Singles(cs, from + 1)
    else Singles(cs, from + 1)
  }

  /** `]` comes first, `-` last, and `^` not first. */
  function SetBody(cs: set<byte>): seq<byte> {
    (if CLOSESET in cs then [CLOSESET] else [])
    + Singles(cs, 0)
    + (if CARET in cs then [CARET] else [])
    + (if DASH in cs then [DASH] else [])
  }

  /** Some member of cs is neither `^` nor `-`. */
  predicate HasPlain(cs: set<byte>) {
    exists c :: c in cs && c != CARET && c != DASH
  }

  function PrintSet(cs: set<byte>): seq<byte> {
    [OPENSET]
    + (if HasPlain(cs) then SetBody(cs) else [CARET] + SetBody(AllBytes() - cs))
    + [CLOSESET]
  }

  /** part lies in s at pos. */
  ghost predicate Lies(s: seq<byte>, pos: nat, part: seq<byte>) {
    pos + |part| <= |s| && s[pos..pos + |part|] == part
  }

  lemma Split(s: seq<byte>, pos: nat, a: seq<byte>, b: seq<byte>)
    requires Lies(s, pos, a + b)
    ensures Lies(s, pos, a) && Lies(s, pos + |a|, b)
  {
    var part := s[pos..pos + |a + b|];
    assert part == a + b;
    assert s[pos..pos + |a|] == part[..|a|] == a;
    assert s[pos + |a|..pos + |a| + |b|] == part[|a|..] == b;
  }

  lemma Byte(s: seq<byte>, pos: nat, c: byte)
    requires Lies(s, pos, [c])
    ensures pos < |s| && s[pos] == c
  {
    assert s[pos..pos + 1][0] == c;
  }

  /** The normal members of cs below `to`. */
  function Below(cs: set<byte>, from: nat): set<byte> {
    set c | c in cs && c >= from && c != CLOSESET && c != CARET && c != DASH
  }

  lemma SinglesAt(cs: set<byte>, from: nat)
    requires from <= 256
    ensures Singles(cs, from) ==
      if from == 256 then []
      else if from in cs && from != CLOSESET && from != CARET
        && from != DASH then [from as byte] + Singles(cs, from + 1)
      else Singles(cs, from + 1)
  {
  }

  lemma BelowAt(cs: set<byte>, from: nat, acc: set<byte>)
    requires from <= 256
    ensures from == 256 ==> acc + Below(cs, from) == acc
    ensures from < 256 && from in cs && from != CLOSESET && from != CARET && from != DASH ==>
              acc + Below(cs, from) == acc + {from as byte} + Below(cs, from + 1)
    ensures from < 256 && !(from in cs && from != CLOSESET && from != CARET && from != DASH) ==>
              acc + Below(cs, from) == acc + Below(cs, from + 1)
  {
    if from < 256 {
      assert Below(cs, from) ==
        if from in cs && from != CLOSESET && from != CARET && from != DASH then {from as byte} + Below(cs, from + 1)
        else Below(cs, from + 1);
    }
  }

  lemma ReadPlain(s: seq<byte>, i: nat, prev: int, first: bool, acc: set<byte>, c: byte)
    requires i < |s| && s[i] == c && c != CLOSESET && c != CARET && c != DASH
    ensures ReadMembers(s, i, prev, false, first, acc) == ReadMembers(s, i + 1, c, false, false, acc + {c})
  {
  }

  lemma {:induction false} ReadSingles(s: seq<byte>, i: nat, prev: int, first: bool, acc: set<byte>, cs: set<byte>,
          from: nat)
      returns (prev': int)
    requires from <= 256 && Lies(s, i, Singles(cs, from)) && -1 <= prev
    ensures var n := |Singles(cs, from)|;
            && ReadMembers(s, i, prev, false, first, acc)
               == ReadMembers(s, i + n, prev', false, first && n == 0, acc + Below(cs, from))
            && -1 <= prev' && (n > 0 ==> prev' != -1) && (n == 0 ==> prev' == prev)
    decreases 256 - from
  {
    hide *;
    SinglesAt(cs, from);
    BelowAt(cs, from, acc);
    if from == 256 {
      prev' := prev;
    } else if from in cs && from != CLOSESET && from != CARET && from != DASH {
      Split(s, i, [from as byte], Singles(cs, from + 1));
      Byte(s, i, from);
      ReadPlain(s, i, prev, first, acc, from);
      prev' := ReadSingles(s, i + 1, from, false, acc + {from as byte}, cs, from + 1);
    } else {
      prev' := ReadSingles(s, i, prev, first, acc, cs, from + 1);
    }
  }

  lemma {:induction false} SinglesSome(cs: set<byte>, from: nat, c: byte)
    requires from <= c && c in cs && c != CLOSESET && c != CARET && c != DASH
    ensures |Singles(cs, from)| > 0
    decreases 256 - from
  {
    if from < c { SinglesSome(cs, from + 1, c); }
  }

  lemma ReadOne(s: seq<byte>, i: nat, prev: int, range: bool, first: bool, acc: set<byte>)
    requires i < |s|
    ensures var ch := s[i];
            ReadMembers(s, i, prev, range, first, acc) ==
              if ch == CLOSESET && !first then SetOf(if range then acc + {DASH} else acc, i + 1)
              else if range then ReadMembers(s, i + 1, -1, false, false, acc + Span(prev, ch))
              else if prev != -1 && ch == DASH then ReadMembers(s, i + 1, prev, true, false, acc)
              else ReadMembers(s, i + 1, ch, false, false, acc + {ch})
  {
  }

  /** The body of a set is read back, up to the closing bracket. */
  lemma ReadBody(s: seq<byte>, i: nat, cs: set<byte>)
    requires Lies(s, i, SetBody(cs) + [CLOSESET]) && (HasPlain(cs) || CARET !in cs) && cs != {}
    ensures ReadMembers(s, i, -1, false, true, {}) == SetOf(cs, i + |SetBody(cs)| + 1)
  {
    hide ReadMembers, Singles, Below, Lies, Span;
    var a: seq<byte> := if CLOSESET in cs then [CLOSESET] else [];
    var b: seq<byte> := Singles(cs, 0);
    var c: seq<byte> := if CARET in cs then [CARET] else [];
    var d: seq<byte> := if DASH in cs then [DASH] else [];
    Split(s, i, a + b + c + d, [CLOSESET]);
    Split(s, i, a + b + c, d);
    Split(s, i, a + b, c);
    Split(s, i, a, b);
    var j, k := i + |a| + |b|, i + |a| + |b| + |c|;
    var m := k + |d|;
    var acc: set<byte> := if CLOSESET in cs then {CLOSESET} else {};
    var prev: int, first := -1, true;
    if CLOSESET in cs {
      Byte(s, i, CLOSESET);
      ReadOne(s, i, -1, false, true, {});
      prev, first := CLOSESET, false;
      assert {} + {CLOSESET} == acc;
    }
    prev := ReadSingles(s, i + |a|, prev, first, acc, cs, 0);
    first := first && |b| == 0;
    acc := acc + Below(cs, 0);
    assert ReadMembers(s, i, -1, false, true, {}) == ReadMembers(s, j, prev, false, first, acc);
    if HasPlain(cs) && CLOSESET !in cs {
      var x :| x in cs && x != CARET && x != DASH;
      SinglesSome(cs, 0, x);
    }
    if CARET in cs {
      Byte(s, j, CARET);
      ReadOne(s, j, prev, false, first, acc);
      prev, first := CARET, false;
      acc := acc + {CARET};
    }
    assert ReadMembers(s, i, -1, false, true, {}) == ReadMembers(s, k, prev, false, first, acc);
    BelowAll(cs);
    Byte(s, m, CLOSESET);
    if DASH in cs {
      Byte(s, k, DASH);
      ReadOne(s, k, prev, false, first, acc);
      ReadOne(s, m, prev, true, false, acc);
      ReadOne(s, m, DASH, false, false, acc + {DASH});
      assert acc + {DASH} == cs;
    } else {
      if first { NoneBelow(cs); }
      ReadOne(s, m, prev, false, first, acc);
      assert acc == cs;
    }
  }

  lemma NoneBelow(cs: set<byte>)
    requires |Singles(cs, 0)| == 0 && CLOSESET !in cs && CARET !in cs && DASH !in cs
    ensures cs == {}
  {
    if x :| x in cs { SinglesSome(cs, 0, x); }
  }

  lemma BelowAll(cs: set<byte>)
    ensures (if CLOSESET in cs then {CLOSESET} else {}) + Below(cs, 0) + (if CARET in cs then {CARET} else {})
      + (if DASH in cs then {DASH} else {}) == cs
  {
  }

  lemma {:induction false} SinglesFirst(cs: set<byte>, from: nat)
    requires from <= 256 && |Singles(cs, from)| > 0
    ensures Singles(cs, from)[0] != CARET
    decreases 256 - from
  {
    if from < 256 && !(from in cs && from != CLOSESET && from != CARET && from != DASH) { SinglesFirst(cs, from + 1); }
  }

  /** A printed set is read back. */
  lemma ReadPrinted(s: seq<byte>, pos: nat, cs: set<byte>)
    requires Lies(s, pos, PrintSet(cs))
    ensures pos < |s| && s[pos] == OPENSET && ReadSet(s, pos + 1) == SetOf(cs, pos + |PrintSet(cs)|)
  {
    hide ReadMembers, Singles, SetBody, Lies, AllBytes;
    if HasPlain(cs) {
      var body := SetBody(cs);
      Split(s, pos, [OPENSET] + body, [CLOSESET]);
      Split(s, pos, [OPENSET], body);
      Byte(s, pos, OPENSET);
      Joined(s, pos, [OPENSET], body, [CLOSESET]);
      ReadBody(s, pos + 1, cs);
      BodyFirst(s, pos + 1, cs);
    } else {
      var rest := AllBytes() - cs;
      var body := SetBody(rest);
      Rest(cs);
      assert [OPENSET] + ([CARET] + body) + [CLOSESET] == [OPENSET] + [CARET] + body + [CLOSESET];
      Split(s, pos, [OPENSET] + [CARET] + body, [CLOSESET]);
      Split(s, pos, [OPENSET] + [CARET], body);
      Split(s, pos, [OPENSET], [CARET]);
      Byte(s, pos, OPENSET);
      Byte(s, pos + 1, CARET);
      Joined(s, pos, [OPENSET] + [CARET], body, [CLOSESET]);
      ReadBody(s, pos + 2, rest);
    }
  }

  lemma Joined(s: seq<byte>, pos: nat, a: seq<byte>, b: seq<byte>, c: seq<byte>)
    requires Lies(s, pos, a + b + c)
    ensures Lies(s, pos + |a|, b + c)
  {
    assert a + b + c == a + (b + c);
    Split(s, pos, a, b + c);
  }

  lemma Rest(cs: set<byte>)
    requires !HasPlain(cs)
    ensures HasPlain(AllBytes() - cs) && AllBytes() - (AllBytes() - cs) == cs
  {
    var a: byte := 97;
    assert a !in cs;
    assert a in AllBytes() - cs;
  }

  lemma BodyFirst(s: seq<byte>, i: nat, cs: set<byte>)
    requires Lies(s, i, SetBody(cs) + [CLOSESET]) && HasPlain(cs)
    ensures i < |s| && s[i] != CARET
  {
    var body := SetBody(cs);
    if CLOSESET !in cs {
      var x :| x in cs && x != CARET && x != DASH;
      SinglesSome(cs, 0, x);
      SinglesFirst(cs, 0);
      assert body[0] == Singles(cs, 0)[0];
    }
    hide Singles, SetBody;
    assert (body + [CLOSESET])[0] == s[i..i + |body + [CLOSESET]|][0];
  }

  // ----- patterns -----

  predicate IsSpecial(c: byte) {
    c == BACKSLASH || c == STAR || c == PLUS || c == QUESTION || c == OPENSET || c == CARET || c == DOLLAR || c == DOT
  }

  function PrintTest(a: Assertion): seq<byte> {
    match a
    case Bol => [CARET]
    case Eol => [DOLLAR]
    case BegBuf => [BACKSLASH, 96]
    case EndBuf => [BACKSLASH, 39]
    case WordBeg => [BACKSLASH, 60]
    case WordEnd => [BACKSLASH, 62]
    case WordBound => [BACKSLASH, 98]
    case NotWordBound => [BACKSLASH, 66]
  }

  function PrintClass(cl: CharClass): seq<byte> {
    match cl
    case Exact(c) => if IsSpecial(c) then [BACKSLASH, c] else [c]
    case AnyChar => [DOT]
    case InSet(cs) => PrintSet(cs)
    case Syntax(_) => [BACKSLASH, 119]
    case NotSyntax(_) => [BACKSLASH, 87]
  }

  function Print(re: Re): seq<byte> {
    match re
    case Eps => []
    case Atom(cl) => PrintClass(cl)
    case Assert(a) => PrintTest(a)
    case Backref(n) => [BACKSLASH, if n < 208 then 48 + n else 48]
    case Seq(l, r) => Print(l) + Print(r)
    case Alt(l, r) => Print(l) + [BACKSLASH, VBAR] + Print(r)
    case Opt(b) => Print(b) + [QUESTION]
    case Star(b) => Print(b) + [STAR]
    case Plus(b) => Print(b) + [PLUS]
    case Group(_, b) => [BACKSLASH, LPAR] + Print(b) + [BACKSLASH, RPAR]
  }

  /** Something that a postfix operator can follow. */
  predicate IsItem(re: Re)
    decreases re, 0
  {
    match re
    case Atom(Syntax(k)) => k == S_WORD
    case Atom(NotSyntax(k)) => k == S_WORD
    case Atom(_) => true
    case Assert(a) => !a.Bol? && !a.Eol?
    case Backref(n) => 1 <= n <= 9
    case Opt(b) => IsItem(b) && Len(b) > 0
    case Star(b) => IsItem(b) && Len(b) > 0
    case Plus(b) => IsItem(b) && Len(b) > 0
    case Group(_, b) => IsAlt(b)
    case _ => false
  }

  predicate EndsEol(re: Re) {
    re == Assert(Eol) || (re.Seq? && re.right == Assert(Eol))
  }

  /** One alternative: items in a row; `^` only begins it and `$` only ends it. */
  predicate IsCat(re: Re)
    decreases re, 1
  {
    match re
    case Eps => true
    case Seq(l, r) => IsCat(l) && !l.Eps? && !EndsEol(l) && (r == Assert(Eol) || IsItem(r))
    case Assert(_) => true
    case _ => IsItem(re)
  }

  /** Alternatives nest to the right. */
  predicate IsAlt(re: Re)
    decreases re, 2
  {
    match re
    case Alt(l, r) => IsCat(l) && IsAlt(r)
    case _ => IsCat(re)
  }

  /** The number of the next register behind re, if it is n in front of it. */
  function NextReg(re: Re, n: nat): nat {
    match re
    case Seq(l, r) => NextReg(r, NextReg(l, n))
    case Alt(l, r) => NextReg(r, NextReg(l, n))
    case Opt(b) => NextReg(b, n)
    case Star(b) => NextReg(b, n)
    case Plus(b) => NextReg(b, n)
    case Group(_, b) => NextReg(b, if n < RE_NREGS then n + 1 else n)
    case _ => n
  }

  /** The groups of re have the registers that they get when the next register is n. */
  predicate Numbered(re: Re, n: nat) {
    match re
    case Seq(l, r) => Numbered(l, n) && Numbered(r, NextReg(l, n))
    case Alt(l, r) => Numbered(l, n) && Numbered(r, NextReg(l, n))
    case Opt(b) => Numbered(b, n)
    case Star(b) => Numbered(b, n)
    case Plus(b) => Numbered(b, n)
    case Group(g, b) => g == (if n < RE_NREGS then n else 0) && Numbered(b, if n < RE_NREGS then n + 1 else n)
    case _ => true
  }

  /** re can be read `depth` groups deep with `pending` alternatives open. */
  predicate Shallow(re: Re, depth: nat, pending: nat) {
    match re
    case Seq(l, r) => Shallow(l, depth, pending) && Shallow(r, depth, pending)
    case Alt(l, r) => Shallow(l, depth, pending) && pending < MAX_NESTING && Shallow(r, depth, pending + 1)
    case Opt(b) => Shallow(b, depth, pending)
    case Star(b) => Shallow(b, depth, pending)
    case Plus(b) => Shallow(b, depth, pending)
    case Group(_, b) => depth < MAX_NESTING - 1 && Shallow(b, depth + 1, pending)
    case _ => true
  }

  predicate Printable(re: Re) {
    IsAlt(re) && Numbered(re, 1) && Shallow(re, 0, 0)
  }

  // ----- reading what has been printed -----

  /** The frame f after it has read the alternative re from its beginning. */
  function CatEnd(f: Frame, re: Re): Frame {
    match re
    case Eps => f
    case Seq(l, r) => if r == Assert(Eol) then Merge(Shift(CatEnd(f, l), r)) else Shift(CatEnd(f, l), r)
    case Assert(a) => if a.Bol? || a.Eol? then Merge(Shift(f, re)) else Shift(f, re)
    case _ => Shift(f, re)
  }

  function AltEnd(f: Frame, re: Re): Frame
    decreases re
  {
    match re
    case Alt(l, r) => AltEnd(Frame(f.reg, f.alts + [l], Eps, Eps), r)
    case _ => CatEnd(f, re)
  }

  /** The frame f is at the beginning of an alternative. */
  predicate Blank(f: Frame) {
    f.pre.Eps? && f.last.Eps?
  }

  lemma SnocEps(r: Re)
    ensures Snoc(r, Eps) == r && Snoc(Eps, r) == r
  {
  }

  lemma {:induction false} CatBuild(f: Frame, re: Re)
    requires Blank(f) && IsCat(re)
    ensures var g := CatEnd(f, re); g.reg == f.reg && g.alts == f.alts && Snoc(g.pre, g.last) == re
    decreases re
  {
    if re.Seq? { CatBuild(f, re.left); }
    hide IsItem, EndsEol;
  }

  lemma {:induction false} AltBuild(f: Frame, re: Re)
    requires Blank(f) && IsAlt(re)
    ensures AltEnd(f, re).reg == f.reg && Build(AltEnd(f, re)) == AltFold(f.alts, re)
    decreases re
  {
    hide IsCat, IsItem, CatEnd, Snoc;
    if re.Alt? {
      var g := Frame(f.reg, f.alts + [re.left], Eps, Eps);
      AltBuild(g, re.right);
      assert g.alts[..|g.alts| - 1] == f.alts;
    } else {
      CatBuild(f, re);
    }
  }

  /** An item other than a postfix operator or a group is one operator. */
  lemma LeafToken(s: seq<byte>, pos: nat, re: Re)
    requires Lies(s, pos, Print(re)) && IsItem(re) && (re.Atom? || re.Assert? || re.Backref?)
    ensures pos < |s| && TokenAt(s, pos) == (Item(re), pos + |Print(re)|)
  {
    hide PrintSet, ReadSet;
    if re.Atom? && re.cl.InSet? {
      ReadPrinted(s, pos, re.cl.members);
    } else {
      assert s[pos] == s[pos..pos + |Print(re)|][0];
      if |Print(re)| > 1 { assert s[pos + 1] == s[pos..pos + |Print(re)|][1]; }
    }
  }

  lemma QuotedToken(s: seq<byte>, pos: nat, c: byte)
    requires Lies(s, pos, [BACKSLASH, c])
    ensures pos + 1 < |s| && TokenAt(s, pos) == (Quoted(c), pos + 2) && s[pos] == BACKSLASH && s[pos + 1] == c
  {
    assert s[pos] == s[pos..pos + 2][0] && s[pos + 1] == s[pos..pos + 2][1];
    hide Quoted;
  }

  /** One operator is read. */
  lemma ReadToken(s: seq<byte>, pos: nat, st: State, tok: Token, next: nat, st': State)
    requires pos < |s| && TokenAt(s, pos) == (tok, next) && Feed(st, tok) == Ok(st')
    ensures ParseFrom(s, pos, st) == ParseFrom(s, next, st')
  {
    hide *;
    ParseStep(s, pos, st);
  }

  lemma PendingIs(fs: seq<Frame>, f: Frame)
    ensures Pending(fs + [f]) == Pending(fs) + |f.alts|
  {
    assert (fs + [f])[..|fs|] == fs;
  }

  /** st after the item re. */
  function ItemEnd(st: State, re: Re): State {
    st.(cur := Shift(st.cur, re), begin := false, next := NextReg(re, st.next))
  }

  ghost predicate Fitting(re: Re, st: State) {
    Numbered(re, st.next) && Shallow(re, |st.outer|, Pending(Frames(st)))
  }

  lemma {:induction false} ReadItem(s: seq<byte>, pos: nat, re: Re, st: State)
    requires Lies(s, pos, Print(re)) && IsItem(re) && Fitting(re, st)
    ensures ParseFrom(s, pos, st) == ParseFrom(s, pos + |Print(re)|, ItemEnd(st, re))
    decreases re, 0
  {
    hide *;
    if re.Atom? || re.Assert? || re.Backref? {
      LeafToken(s, pos, re);
      LeafFeeds(st, re);
      ReadToken(s, pos, st, Item(re), pos + |Print(re)|, ItemEnd(st, re));
    } else if re.Opt? || re.Star? || re.Plus? {
      ReadPostfix(s, pos, re, st);
    } else {
      ItemKinds(re);
      ReadGroup(s, pos, re.reg, re.body, st);
    }
  }

  lemma ItemKinds(re: Re)
    requires IsItem(re)
    ensures re.Atom? || re.Assert? || re.Backref? || re.Opt? || re.Star? || re.Plus? || re.Group?
  {
    hide IsAlt;
  }

  lemma LeafFeeds(st: State, re: Re)
    requires re.Atom? || re.Assert? || re.Backref?
    ensures Feed(st, Item(re)) == Ok(ItemEnd(st, re))
  {
    hide Shift;
  }

  function PostfixByte(re: Re): byte {
    if re.Opt? then QUESTION else if re.Star? then STAR else PLUS
  }

  lemma PostfixParts(re: Re, st: State)
    requires (re.Opt? || re.Star? || re.Plus?) && IsItem(re) && Fitting(re, st)
    ensures IsItem(re.body) && Fitting(re.body, st) && Len(re.body) > 0
    ensures Print(re) == Print(re.body) + [PostfixByte(re)]
    ensures Feed(ItemEnd(st, re.body), Postfix(PostfixByte(re))) == Ok(ItemEnd(st, re))
  {
    hide Snoc, Len, Pending, Print;
    assert Print(re) == Print(re.body) + [PostfixByte(re)] by { PrintPostfix(re); }
  }

  lemma PrintPostfix(re: Re)
    requires re.Opt? || re.Star? || re.Plus?
    ensures Print(re) == Print(re.body) + [PostfixByte(re)]
  {
  }

  lemma PostfixToken(s: seq<byte>, pos: nat, c: byte)
    requires Lies(s, pos, [c]) && (c == STAR || c == PLUS || c == QUESTION)
    ensures pos < |s| && TokenAt(s, pos) == (Postfix(c), pos + 1)
  {
    Byte(s, pos, c);
    hide ReadSet, Quoted, EndsHere, Lies;
  }

  lemma {:induction false} ReadPostfix(s: seq<byte>, pos: nat, re: Re, st: State)
    requires (re.Opt? || re.Star? || re.Plus?) && Lies(s, pos, Print(re)) && IsItem(re) && Fitting(re, st)
    ensures ParseFrom(s, pos, st) == ParseFrom(s, pos + |Print(re)|, ItemEnd(st, re))
    decreases re.body, 9
  {
    hide *;
    PostfixParts(re, st);
    Split(s, pos, Print(re.body), [PostfixByte(re)]);
    ReadItem(s, pos, re.body, st);
    var mid := pos + |Print(re.body)|;
    PostfixBytes(re);
    PostfixToken(s, mid, PostfixByte(re));
    ReadToken(s, mid, ItemEnd(st, re.body), Postfix(PostfixByte(re)), mid + 1, ItemEnd(st, re));
  }

  lemma PostfixBytes(re: Re)
    ensures PostfixByte(re) == STAR || PostfixByte(re) == PLUS || PostfixByte(re) == QUESTION
  {
  }

  /** The state behind `\(`. */
  function Opened(st: State): State {
    if st.next < RE_NREGS then State(st.outer + [Merge(st.cur)], Frame(st.next, [], Eps, Eps), st.next + 1, true)
    else State(st.outer + [Merge(st.cur)], Frame(0, [], Eps, Eps), st.next, true)
  }

  lemma GroupOpens(g: byte, b: Re, st: State)
    requires IsItem(Group(g, b)) && Fitting(Group(g, b), st)
    ensures IsAlt(b) && Fitting(b, Opened(st)) && Blank(Opened(st).cur) && Opened(st).begin
    ensures Feed(st, Open) == Ok(Opened(st)) && Quoted(LPAR) == Open && Quoted(RPAR) == Close
    ensures Print(Group(g, b)) == [BACKSLASH, LPAR] + Print(b) + [BACKSLASH, RPAR]
  {
    PendingIs(st.outer, st.cur);
    PendingIs(st.outer, Merge(st.cur));
    PendingIs(Opened(st).outer, Opened(st).cur);
    hide Snoc, Print, IsAlt, Shallow, Pending;
    GroupParts(g, b, |st.outer|, Pending(Frames(st)));
    PrintGroup(g, b);
  }

  lemma GroupParts(g: byte, b: Re, depth: nat, pending: nat)
    requires Shallow(Group(g, b), depth, pending)
    ensures depth < MAX_NESTING - 1 && Shallow(b, depth + 1, pending)
  {
  }

  lemma PrintGroup(g: byte, b: Re)
    ensures Print(Group(g, b)) == [BACKSLASH, LPAR] + Print(b) + [BACKSLASH, RPAR]
  {
  }

  /** `\)` behind the body of a group. */
  lemma GroupCloses(g: byte, b: Re, st: State, inner: State)
    requires IsAlt(b) && Numbered(Group(g, b), st.next)
    requires inner.outer == Opened(st).outer && inner.cur == AltEnd(Opened(st).cur, b)
      && inner.next == NextReg(b, Opened(st).next)
    ensures Feed(inner, Close) == Ok(ItemEnd(st, Group(g, b)))
  {
    AltBuild(Opened(st).cur, b);
    hide IsAlt, AltEnd, Build, Snoc;
  }

  /** A `$` in front of `\|` or `\)` is an operator. */
  lemma EndsBefore(s: seq<byte>, pos: nat, c: byte)
    requires Lies(s, pos, [BACKSLASH, c]) && (c == VBAR || c == RPAR)
    ensures EndsHere(s, pos)
  {
    QuotedToken(s, pos, c);
  }

  lemma {:induction false} ReadGroup(s: seq<byte>, pos: nat, g: byte, b: Re, st: State)
    requires Lies(s, pos, Print(Group(g, b))) && IsItem(Group(g, b)) && Fitting(Group(g, b), st)
    ensures ParseFrom(s, pos, st) == ParseFrom(s, pos + |Print(Group(g, b))|, ItemEnd(st, Group(g, b)))
    decreases b, 9
  {
    hide *;
    GroupOpens(g, b, st);
    Split(s, pos, [BACKSLASH, LPAR] + Print(b), [BACKSLASH, RPAR]);
    Split(s, pos, [BACKSLASH, LPAR], Print(b));
    var end := pos + 2 + |Print(b)|;
    QuotedToken(s, pos, LPAR);
    ReadToken(s, pos, st, Open, pos + 2, Opened(st));
    EndsBefore(s, end, RPAR);
    var inner := ReadAlt(s, pos + 2, b, Opened(st));
    assert Numbered(Group(g, b), st.next) by { FittingParts(Group(g, b), st); }
    GroupCloses(g, b, st, inner);
    QuotedToken(s, end, RPAR);
    ReadToken(s, end, inner, Close, end + 2, ItemEnd(st, Group(g, b)));
  }

  lemma FittingParts(re: Re, st: State)
    requires Fitting(re, st)
    ensures Numbered(re, st.next) && Shallow(re, |st.outer|, Pending(Frames(st)))
  {
  }

  /** `^` at the beginning of an alternative, and `$` at its end. */
  lemma EdgeToken(s: seq<byte>, pos: nat, a: Assertion, st: State)
    requires Lies(s, pos, Print(Assert(a))) && ((a.Bol? && st.begin) || (a.Eol? && EndsHere(s, pos + 1)))
    ensures pos < |s| && |Print(Assert(a))| == 1
    ensures TokenAt(s, pos) == (if a.Bol? then Caret else Dollar(true), pos + 1)
    ensures Feed(st, if a.Bol? then Caret else Dollar(true)) ==
      Ok(st.(cur := Merge(Shift(st.cur, Assert(a))), begin := false))
  {
    Byte(s, pos, if a.Bol? then CARET else DOLLAR);
    hide ReadSet, Quoted, EndsHere, Lies, Merge, Shift;
  }

  lemma CatCases(f: Frame, re: Re)
    requires IsCat(re)
    ensures re.Seq? || re.Eps? || re == Assert(Bol) || re == Assert(Eol) || IsItem(re)
    ensures re.Eps? ==> CatEnd(f, re) == f && Print(re) == []
    ensures re == Assert(Bol) || re == Assert(Eol) ==> CatEnd(f, re) == Merge(Shift(f, re)) && EndsEol(Assert(Eol))
    ensures IsItem(re) ==> CatEnd(f, re) == Shift(f, re)
    ensures re.Seq? ==> IsCat(re.left) && !EndsEol(re.left) && (re.right == Assert(Eol) || IsItem(re.right))
    ensures re.Seq? && re.right == Assert(Eol) ==>
      CatEnd(f, re) == Merge(Shift(CatEnd(f, re.left), re.right)) && EndsEol(re)
    ensures re.Seq? && re.right != Assert(Eol) ==> CatEnd(f, re) == Shift(CatEnd(f, re.left), re.right)
    ensures re.Seq? ==> Print(re) == Print(re.left) + Print(re.right)
  {
    hide IsAlt, Merge, Shift, PrintTest, PrintClass;
  }

  lemma SeqFits(re: Re, st: State, mid: State)
    requires re.Seq? && Fitting(re, st) && mid.outer == st.outer && mid.cur.alts == st.cur.alts
      && mid.next == NextReg(re.left, st.next)
    ensures Fitting(re.left, st) && Fitting(re.right, mid) && NextReg(re, st.next) == NextReg(re.right, mid.next)
  {
    PendingIs(st.outer, st.cur);
    PendingIs(mid.outer, mid.cur);
    hide Pending;
  }

  lemma LeafNext(re: Re, n: nat)
    ensures re.Eps? || re.Assert? ==> NextReg(re, n) == n
  {
  }

  lemma {:induction false} CatFrame(f: Frame, re: Re)
    ensures CatEnd(f, re).alts == f.alts && CatEnd(f, re).reg == f.reg
    decreases re
  {
    if re.Seq? { CatFrame(f, re.left); }
    hide Snoc;
  }

  lemma {:induction false} ReadCat(s: seq<byte>, pos: nat, re: Re, st: State) returns (st': State)
    requires Lies(s, pos, Print(re)) && IsCat(re) && Fitting(re, st) && Blank(st.cur) && st.begin
    requires EndsEol(re) ==> EndsHere(s, pos + |Print(re)|)
    ensures ParseFrom(s, pos, st) == ParseFrom(s, pos + |Print(re)|, st')
    ensures st'.outer == st.outer && st'.cur == CatEnd(st.cur, re) && st'.next == NextReg(re, st.next)
    decreases re, 1
  {
    hide *;
    CatCases(st.cur, re);
    LeafNext(re, st.next);
    if re.Eps? {
      st' := st;
    } else if re == Assert(Bol) || re == Assert(Eol) {
      if re == Assert(Eol) { OneByte(Eol); }
      EdgeToken(s, pos, re.a, st);
      st' := st.(cur := Merge(Shift(st.cur, re)), begin := false);
      ReadToken(s, pos, st, if re.a.Bol? then Caret else Dollar(true), pos + 1, st');
    } else if re.Seq? {
      var l, r := re.left, re.right;
      Split(s, pos, Print(l), Print(r));
      SeqLeftFits(re, st);
      var mid := ReadCat(s, pos, l, st);
      CatFrame(st.cur, l);
      SeqFits(re, st, mid);
      LeafNext(r, mid.next);
      var p := pos + |Print(l)|;
      if r == Assert(Eol) {
        OneByte(Eol);
        EdgeToken(s, p, Eol, mid);
        st' := mid.(cur := Merge(Shift(mid.cur, r)), begin := false);
        ReadToken(s, p, mid, Dollar(true), p + 1, st');
      } else {
        ReadItem(s, p, r, mid);
        st' := ItemEnd(mid, r);
        ItemEndIs(mid, r);
      }
    } else {
      ReadItem(s, pos, re, st);
      st' := ItemEnd(st, re);
      ItemEndIs(st, re);
    }
  }

  lemma OneByte(a: Assertion)
    ensures a.Bol? || a.Eol? ==> |Print(Assert(a))| == 1
  {
  }

  lemma SeqLeftFits(re: Re, st: State)
    requires re.Seq? && Fitting(re, st)
    ensures Fitting(re.left, st)
  {
    hide Pending;
  }

  lemma ItemEndIs(st: State, re: Re)
    ensures ItemEnd(st, re).outer == st.outer && ItemEnd(st, re).cur == Shift(st.cur, re)
      && ItemEnd(st, re).next == NextReg(re, st.next)
  {
    hide Shift, NextReg;
  }

  lemma AltCases(f: Frame, re: Re)
    requires IsAlt(re)
    ensures re.Alt? ==>
      IsCat(re.left) && IsAlt(re.right) && AltEnd(f, re) == AltEnd(Frame(f.reg, f.alts + [re.left], Eps, Eps), re.right)
    ensures re.Alt? ==> Print(re) == Print(re.left) + [BACKSLASH, VBAR] + Print(re.right)
    ensures !re.Alt? ==> IsCat(re) && AltEnd(f, re) == CatEnd(f, re)
  {
    hide IsItem, PrintTest, PrintClass, CatEnd, EndsEol;
  }

  /** The state behind `\|`. */
  function Barred(st: State, l: Re): State {
    st.(cur := Frame(st.cur.reg, st.cur.alts + [l], Eps, Eps), begin := true)
  }

  lemma AltFits(re: Re, st: State, mid: State)
    requires re.Alt? && IsCat(re.left) && Fitting(re, st) && Blank(st.cur)
    requires mid.outer == st.outer && mid.cur == CatEnd(st.cur, re.left) && mid.next == NextReg(re.left, st.next)
    ensures Feed(mid, Bar) == Ok(Barred(mid, re.left)) && Fitting(re.right, Barred(mid, re.left))
    ensures mid.cur.alts == st.cur.alts && mid.cur.reg == st.cur.reg && Quoted(VBAR) == Bar
    ensures NextReg(re, st.next) == NextReg(re.right, mid.next) && Blank(Barred(mid, re.left).cur)
      && Barred(mid, re.left).begin
  {
    CatBuild(st.cur, re.left);
    PendingIs(st.outer, st.cur);
    PendingIs(mid.outer, mid.cur);
    PendingIs(mid.outer, Barred(mid, re.left).cur);
    AltParts(re, |st.outer|, Pending(Frames(st)), st.next);
    hide Pending, IsCat, CatEnd, Snoc, Shallow, Numbered, NextReg;
  }

  lemma AltParts(re: Re, depth: nat, pending: nat, n: nat)
    requires re.Alt? && Shallow(re, depth, pending) && Numbered(re, n)
    ensures Shallow(re.left, depth, pending) && pending < MAX_NESTING && Shallow(re.right, depth, pending + 1)
    ensures Numbered(re.left, n) && Numbered(re.right, NextReg(re.left, n))
      && NextReg(re, n) == NextReg(re.right, NextReg(re.left, n))
  {
  }

  lemma AltLeftFits(re: Re, st: State)
    requires re.Alt? && Fitting(re, st)
    ensures Fitting(re.left, st)
  {
    hide Pending;
  }

  lemma {:induction false} ReadAlt(s: seq<byte>, pos: nat, re: Re, st: State) returns (st': State)
    requires Lies(s, pos, Print(re)) && IsAlt(re) && Fitting(re, st) && Blank(st.cur) && st.begin
    requires EndsHere(s, pos + |Print(re)|)
    ensures ParseFrom(s, pos, st) == ParseFrom(s, pos + |Print(re)|, st')
    ensures st'.outer == st.outer && st'.cur == AltEnd(st.cur, re) && st'.next == NextReg(re, st.next)
    decreases re, 2
  {
    hide *;
    AltCases(st.cur, re);
    if re.Alt? {
      var l, r := re.left, re.right;
      Split(s, pos, Print(l) + [BACKSLASH, VBAR], Print(r));
      Split(s, pos, Print(l), [BACKSLASH, VBAR]);
      var p := pos + |Print(l)|;
      EndsBefore(s, p, VBAR);
      AltLeftFits(re, st);
      var mid := ReadCat(s, pos, l, st);
      AltFits(re, st, mid);
      QuotedToken(s, p, VBAR);
      ReadToken(s, p, mid, Bar, p + 2, Barred(mid, l));
      BarredIs(mid, l);
      st' := ReadAlt(s, p + 2, r, Barred(mid, l));
    } else {
      st' := ReadCat(s, pos, re, st);
    }
  }

  lemma BarredIs(st: State, l: Re)
    ensures Barred(st, l) == st.(cur := Frame(st.cur.reg, st.cur.alts + [l], Eps, Eps), begin := true)
  {
  }

  /** Every pattern that can be written is read back. */
  lemma RoundTrip(re: Re)
    requires Printable(re)
    ensures Parse(Print(re)) == Ok(re)
  {
    hide *;
    var s := Print(re);
    WholeLies(s);
    StartFits(re);
    var st := ReadAlt(s, 0, re, Start());
    ParseStart(s);
    ParseEnd(s, st);
    StartBuild(re);
  }

  lemma WholeLies(s: seq<byte>)
    ensures Lies(s, 0, s) && EndsHere(s, 0 + |s|)
  {
  }

  lemma StartFits(re: Re)
    requires Printable(re)
    ensures IsAlt(re) && Fitting(re, Start()) && Blank(Start().cur) && Start().begin && Start().outer == []
  {
    PendingIs([], Start().cur);
    assert Frames(Start()) == [] + [Start().cur];
    hide IsAlt, Numbered, Shallow;
    assert Pending([]) == 0;
  }

  lemma StartBuild(re: Re)
    requires IsAlt(re)
    ensures Build(AltEnd(Start().cur, re)) == re
  {
    AltBuild(Start().cur, re);
    hide IsAlt, AltEnd, Build;
  }
}
