/** Patterns of src/regexpr.c as trees, and the language of a pattern.

    `Matches(re, text, i, j)` is the meaning against which the byte-code compiler, the
    backtracking matcher and the searcher are judged: the bytes text[i..j] are matched by re
    when it starts at position i of text.  Zero-width operators look at the whole text. */
module RegexSyntax {

  type byte = x: int | 0 <= x < 256

  const NEWLINE: byte := 10
  /** The only syntax class that the table of src/regexpr.c:169-173 gives out. */
  const S_WORD: byte := 1

  datatype CharClass =
    | Exact(c: byte)
    | AnyChar
    | InSet(members: set<byte>)
    | Syntax(spec: byte)
    | NotSyntax(spec: byte)

  datatype Assertion = Bol | Eol | BegBuf | EndBuf | WordBeg | WordEnd | WordBound | NotWordBound

  datatype Re =
    | Eps
    | Atom(cl: CharClass)
    | Assert(a: Assertion)
    | Backref(n: byte)
    | Seq(left: Re, right: Re)
    | Alt(left: Re, right: Re)
    | Opt(body: Re)
    | Star(body: Re)
    | Plus(body: Re)
    | Group(reg: byte, body: Re)  // reg 0: the group got no register

  // ----- characters -----

  predicate IsWord(c: byte) {
    97 <= c <= 122 || 65 <= c <= 90 || 48 <= c <= 57
  }

  function SyntaxOf(c: byte): byte {
    if IsWord(c) then S_WORD else 0
  }

  predicate Accepts(cl: CharClass, c: byte) {
    match cl
    case Exact(d) => c == d
    case AnyChar => c != NEWLINE
    case InSet(members) => c in members
    case Syntax(k) => SyntaxOf(c) == k
    case NotSyntax(k) => SyntaxOf(c) != k
  }

  predicate Holds(a: Assertion, text: seq<byte>, i: nat)
    requires i <= |text|
  {
    match a
    case Bol => i == 0 || text[i-1] == NEWLINE
    case Eol => i == |text| || text[i] == NEWLINE
    case BegBuf => i == 0
    case EndBuf => i == |text|
    case WordBeg => i < |text| && IsWord(text[i]) && (i == 0 || !IsWord(text[i-1]))
    case WordEnd => i > 0 && IsWord(text[i-1]) && (i == |text| || !IsWord(text[i]))
    case WordBound => i == 0 || i == |text| || IsWord(text[i-1]) != IsWord(text[i])
    case NotWordBound => i != 0 && i != |text| && IsWord(text[i-1]) == IsWord(text[i])
  }

  // ----- the language of a pattern -----

  ghost predicate Matches(re: Re, text: seq<byte>, i: nat, j: nat)
    requires i <= |text| && j <= |text|
    decreases re, 0, 0
  {
    match re
    case Eps => i == j
    case Atom(cl) => i < |text| && j == i + 1 && Accepts(cl, text[i])
    case Assert(a) => i == j && Holds(a, text, i)
    case Backref(_) => false  // not given a meaning here
    case Seq(l, r) => exists k | i <= k <= j :: Matches(l, text, i, k) && Matches(r, text, k, j)
    case Alt(l, r) => Matches(l, text, i, j) || Matches(r, text, i, j)
    case Opt(b) => i == j || Matches(b, text, i, j)
    case Star(b) => Many(b, text, i, j)
    case Plus(b) => exists k | i <= k <= j :: Matches(b, text, i, k) && Many(b, text, k, j)
    case Group(_, b) => Matches(b, text, i, j)
  }

  /** Zero or more matches of b in a row.  A match of b that consumes nothing adds nothing. */
  ghost predicate Many(b: Re, text: seq<byte>, i: nat, j: nat)
    requires i <= |text| && j <= |text|
    decreases b, 1, if j >= i then j - i else 0
  {
    i == j || exists k | i < k <= j :: Matches(b, text, i, k) && Many(b, text, k, j)
  }

  predicate NoBackref(re: Re) {
    match re
    case Backref(_) => false
    case Seq(l, r) => NoBackref(l) && NoBackref(r)
    case Alt(l, r) => NoBackref(l) && NoBackref(r)
    case Opt(b) => NoBackref(b)
    case Star(b) => NoBackref(b)
    case Plus(b) => NoBackref(b)
    case Group(_, b) => NoBackref(b)
    case _ => true
  }

  /** The only zero-width operator of re is `$`. */
  predicate OnlyEol(re: Re) {
    match re
    case Assert(a) => a == Eol
    case Seq(l, r) => OnlyEol(l) && OnlyEol(r)
    case Alt(l, r) => OnlyEol(l) && OnlyEol(r)
    case Opt(b) => OnlyEol(b)
    case Star(b) => OnlyEol(b)
    case Plus(b) => OnlyEol(b)
    case Group(_, b) => OnlyEol(b)
    case _ => true
  }

  // ----- parse trees: the same language without quantifiers -----

  /** How a match was made.  `Then` splits a sequence (or an iteration from the rest) at mid. */
  datatype Tree =
    | Leaf
    | Then(mid: nat, fst: Tree, snd: Tree)
    | InLeft(sub: Tree)
    | InRight(sub: Tree)

  predicate Derives(d: Tree, re: Re, text: seq<byte>, i: nat, j: nat)
    requires i <= |text| && j <= |text|
    decreases re, 0, d
  {
    match re
    case Eps => i == j
    case Atom(cl) => i < |text| && j == i + 1 && Accepts(cl, text[i])
    case Assert(a) => i == j && Holds(a, text, i)
    case Backref(_) => false
    case Seq(l, r) => d.Then? && i <= d.mid <= j && Derives(d.fst, l, text, i, d.mid)
      && Derives(d.snd, r, text, d.mid, j)
    case Alt(l, r) => (d.InLeft? && Derives(d.sub, l, text, i, j)) || (d.InRight? && Derives(d.sub, r, text, i, j))
    case Opt(b) => (d.Leaf? && i == j) || (d.InLeft? && Derives(d.sub, b, text, i, j))
    case Star(b) => DerivesMany(d, b, text, i, j)
    case Plus(b) => d.Then? && i <= d.mid <= j && Derives(d.fst, b, text, i, d.mid)
      && DerivesMany(d.snd, b, text, d.mid, j)
    case Group(_, b) => Derives(d, b, text, i, j)
  }

  predicate DerivesMany(d: Tree, b: Re, text: seq<byte>, i: nat, j: nat)
    requires i <= |text| && j <= |text|
    decreases b, 1, d
  {
    || (d.Leaf? && i == j)
    || (d.Then? && i <= d.mid <= j && Derives(d.fst, b, text, i, d.mid) && DerivesMany(d.snd, b, text, d.mid, j))
  }

  lemma {:induction false} TreeMatches(d: Tree, re: Re, text: seq<byte>, i: nat, j: nat)
    requires i <= |text| && j <= |text| && Derives(d, re, text, i, j)
    ensures Matches(re, text, i, j) && i <= j
    decreases re, 0, d
  {
    match re
    case Seq(l, r) => TreeMatches(d.fst, l, text, i, d.mid); TreeMatches(d.snd, r, text, d.mid, j);
    case Alt(l, r) => if d.InLeft? { TreeMatches(d.sub, l, text, i, j); } else { TreeMatches(d.sub, r, text, i, j); }
    case Opt(b) => if d.InLeft? { TreeMatches(d.sub, b, text, i, j); }
    case Star(b) => TreeMany(d, b, text, i, j);
    case Plus(b) => TreeMatches(d.fst, b, text, i, d.mid); TreeMany(d.snd, b, text, d.mid, j);
    case Group(_, b) => TreeMatches(d, b, text, i, j);
    case _ =>
  }

  lemma {:induction false} TreeMany(d: Tree, b: Re, text: seq<byte>, i: nat, j: nat)
    requires i <= |text| && j <= |text| && DerivesMany(d, b, text, i, j)
    ensures Many(b, text, i, j) && i <= j
    decreases b, 1, d
  {
    if d.Then? {
      TreeMatches(d.fst, b, text, i, d.mid);
      TreeMany(d.snd, b, text, d.mid, j);
    }
  }

  lemma {:induction false} MatchTree(re: Re, text: seq<byte>, i: nat, j: nat) returns (d: Tree)
    requires i <= |text| && j <= |text| && Matches(re, text, i, j)
    ensures Derives(d, re, text, i, j)
    decreases re, 0, 0
  {
    match re
    case Seq(l, r) =>
      var k :| i <= k <= j && Matches(l, text, i, k) && Matches(r, text, k, j);
      var d1 := MatchTree(l, text, i, k);
      var d2 := MatchTree(r, text, k, j);
      d := Then(k, d1, d2);
    case Alt(l, r) =>
      if Matches(l, text, i, j) { d := MatchTree(l, text, i, j); d := InLeft(d); }
      else { d := MatchTree(r, text, i, j); d := InRight(d); }
    case Opt(b) =>
      if i == j { d := Leaf; } else { d := MatchTree(b, text, i, j); d := InLeft(d); }
    case Star(b) => d := ManyTree(b, text, i, j);
    case Plus(b) =>
      var k :| i <= k <= j && Matches(b, text, i, k) && Many(b, text, k, j);
      var d1 := MatchTree(b, text, i, k);
      var d2 := ManyTree(b, text, k, j);
      d := Then(k, d1, d2);
    case Group(_, b) => d := MatchTree(b, text, i, j);
    case _ => d := Leaf;
  }

  lemma {:induction false} ManyTree(b: Re, text: seq<byte>, i: nat, j: nat) returns (d: Tree)
    requires i <= |text| && j <= |text| && Many(b, text, i, j)
    ensures DerivesMany(d, b, text, i, j)
    decreases b, 1, if j >= i then j - i else 0
  {
    if i == j {
      d := Leaf;
    } else {
      var k :| i < k <= j && Matches(b, text, i, k) && Many(b, text, k, j);
      var d1 := MatchTree(b, text, i, k);
      var d2 := ManyTree(b, text, k, j);
      d := Then(k, d1, d2);
    }
  }
}
