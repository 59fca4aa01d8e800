/** Escaping for storage and its inverse on output (src/echo.c). */
module Slashes {
  import opened RegexSyntax
  import opened RegexProgram
  import opened RegexStructure
  import opened RegexBacktrack
  import opened RegexRuns
  import opened RegexCode
  import opened RegexMatcher
  import opened RegexBuffer
  import opened RegReplace
  import opened StringQuote
  import RegexParse

  const SLASH: byte := 92
  const QUOTE: byte := 39

  // ----- the functions on strings -----

  /** Every c becomes r. */
  function Each(s: seq<byte>, c: byte, r: seq<byte>): seq<byte> {
    if s == [] then [] else Each(s[..|s| - 1], c, r) + (if s[|s| - 1] == c then r else [s[|s| - 1]])
  }

  /** A backslash in front of each backslash, `$` and `'`. */
  function Escaped(s: seq<byte>): seq<byte> {
    if s == [] then []
    else Escaped(s[..|s| - 1]) + (if s[|s| - 1] == SLASH || s[|s| - 1] == RegexParse.DOLLAR
      || s[|s| - 1] == QUOTE then [SLASH, s[|s| - 1]] else [s[|s| - 1]])
  }

  /** Each backslash goes, and what follows it stays. */
  function Stripped(s: seq<byte>): seq<byte> {
    if s == [] then []
    else if s[0] != SLASH then [s[0]] + Stripped(s[1..])
    else if |s| == 1 then []
    else [s[1]] + Stripped(s[2..])
  }

  /** What the letter behind a backslash stands for. */
  function Control(c: byte): seq<byte> {
    if c == SLASH then [SLASH, SLASH] else if c == 110 then [10] else if c == 116 then [9] else if c == 114 then [13]
    else []
  }

  function Parsed(s: seq<byte>): seq<byte> {
    if s == [] then []
    else if s[0] == SLASH && |s| > 1 && Control(s[1]) != [] then Control(s[1]) + Parsed(s[2..])
    else [s[0]] + Parsed(s[1..])
  }

  // ----- the characters concerned, written out -----

  /** Escaping goes byte by byte, and puts a backslash in front of backslashes, dollars and quotes only. */
  lemma EscapedSnoc(s: seq<byte>, c: byte)
    ensures Escaped([]) == []
    ensures Escaped(s + [c]) == Escaped(s) + (if (c as char) in "\\$'" then [92, c] else [c])
  {
    assert (s + [c])[..|s|] == s;
  }

  /** Of two bytes the first of which is a backslash (92), the second stays; other bytes stay; and a backslash
      at the end goes. */
  lemma StrippedCons(c: byte, s: seq<byte>)
    ensures Stripped([]) == [] && Stripped([92]) == []
    ensures Stripped([92, c] + s) == [c] + Stripped(s)
    ensures c != 92 ==> Stripped([c] + s) == [c] + Stripped(s)
  {
    assert ([92, c] + s)[2..] == s && ([c] + s)[1..] == s;
  }

  /** Behind a backslash n, t and r stand for newline, tab and return, and a backslash for itself, both of
      them staying; in front of any other byte a backslash stays. */
  lemma ParsedCons(c: byte, s: seq<byte>)
    ensures Parsed([]) == [] && Parsed([92]) == [92]
    ensures c == 'n' as int ==> Parsed([92, c] + s) == ['\n' as int] + Parsed(s)
    ensures c == 't' as int ==> Parsed([92, c] + s) == ['\t' as int] + Parsed(s)
    ensures c == 'r' as int ==> Parsed([92, c] + s) == ['\r' as int] + Parsed(s)
    ensures c == 92 ==> Parsed([92, c] + s) == [92, 92] + Parsed(s)
    ensures (c as char) !in "ntr\\" ==> Parsed([92, c] + s) == [92, c] + Parsed(s)
    ensures c != 92 ==> Parsed([c] + s) == [c] + Parsed(s)
  {
    var two := [92, c] + s;
    assert two[2..] == s && two[1..] == [c] + s && ([c] + s)[1..] == s;
    assert [92] + ([c] + Parsed(s)) == [92, c] + Parsed(s);
    assert [92][1..] == [];
  }

  // ----- stored text survives output -----

  lemma {:induction false} EscapedCons(c: byte, s: seq<byte>)
    ensures Escaped([c] + s) == (if c == SLASH || c == RegexParse.DOLLAR || c == QUOTE then [SLASH, c] else [c])
      + Escaped(s)
    decreases |s|
  {
    if s == [] {
      assert [c] + s == [c] && [c][..0] == [];
      assert Escaped([]) == [];
    } else {
      var init := s[..|s| - 1];
      EscapedCons(c, init);
      assert ([c] + s)[..|s|] == [c] + init;
    }
  }

  /** The control sequences find nothing to replace in escaped text. */
  lemma {:induction false} ParsedEscaped(s: seq<byte>)
    ensures Parsed(Escaped(s)) == Escaped(s)
    decreases |s|
  {
    if s != [] {
      var c, rest := s[0], s[1..];
      ParsedEscaped(rest);
      assert s == [c] + rest;
      EscapedCons(c, rest);
      var e := Escaped(rest);
      if c == SLASH {
        assert ([SLASH, SLASH] + e)[2..] == e;
      } else if c == RegexParse.DOLLAR || c == QUOTE {
        assert ([SLASH, c] + e)[1..] == [c] + e;
        assert ([c] + e)[1..] == e;
        assert Parsed([c] + e) == [c] + Parsed(e);
        assert [SLASH, c] + e == [SLASH] + ([c] + e);
      } else {
        assert ([c] + e)[1..] == e;
      }
    }
  }

  lemma {:induction false} StrippedEscaped(s: seq<byte>)
    ensures Stripped(Escaped(s)) == s
    decreases |s|
  {
    if s != [] {
      var c, rest := s[0], s[1..];
      StrippedEscaped(rest);
      assert s == [c] + rest;
      EscapedCons(c, rest);
      var e := Escaped(rest);
      if c == SLASH || c == RegexParse.DOLLAR || c == QUOTE {
        assert ([SLASH, c] + e)[2..] == e;
      } else {
        assert ([c] + e)[1..] == e;
      }
    }
  }

  /** StripSlashes after ParseEscapes after AddSlashes gives back every string. */
  lemma StoredSurvives(s: seq<byte>)
    ensures Stripped(Parsed(Escaped(s))) == s
  {
    ParsedEscaped(s);
    StrippedEscaped(s);
  }

  // ----- the in-place loops -----

  /** a begins with the C string s. */
  ghost predicate HoldsString(a: array<byte>, s: seq<byte>)
    reads a
  {
    |s| < a.Length && a[..|s|] == s && a[|s|] == 0 && forall k :: 0 <= k < |s| ==> s[k] != 0
  }

  /** The last backslash has nothing behind it. */
  predicate EndsUnpaired(s: seq<byte>) {
    if s == [] then false
    else if s[0] != SLASH then EndsUnpaired(s[1..])
    else if |s| == 1 then true
    else EndsUnpaired(s[2..])
  }

  /** Escaped text has no such backslash. */
  lemma {:induction false} EscapedPaired(s: seq<byte>)
    ensures !EndsUnpaired(Escaped(s))
    decreases |s|
  {
    if s != [] {
      var c, rest := s[0], s[1..];
      EscapedPaired(rest);
      assert s == [c] + rest;
      EscapedCons(c, rest);
      var e := Escaped(rest);
      if c == SLASH || c == RegexParse.DOLLAR || c == QUOTE {
        assert ([SLASH, c] + e)[2..] == e;
      } else {
        assert ([c] + e)[1..] == e;
      }
    }
  }

  lemma UnpairedStep(text: seq<byte>, t: nat)
    requires t < |text|
    ensures text[t] != SLASH ==> EndsUnpaired(text[t..]) == EndsUnpaired(text[t + 1..])
    ensures text[t] == SLASH && t + 1 < |text| ==> EndsUnpaired(text[t..]) == EndsUnpaired(text[t + 2..])
    ensures text[t] == SLASH && t + 1 == |text| ==> EndsUnpaired(text[t..])
  {
    assert text[t..][1..] == text[t + 1..];
    if t + 1 < |text| { assert text[t..][2..] == text[t + 2..]; }
  }

  lemma PairedEnd(text: seq<byte>)
    ensures !EndsUnpaired(text[|text|..])
  {
  }

  /** StripSlashes: t reads, s writes, in the same array.  After an unpaired backslash the byte behind
      the NUL is read. */
  method StripSlashes(a: array<byte>, ghost text: seq<byte>) returns (ghost furthest: nat)
    requires HoldsString(a, text) && (EndsUnpaired(text) ==> |text| + 1 < a.Length)
    modifies a
    ensures HoldsString(a, Stripped(text))
    ensures furthest == if EndsUnpaired(text) then |text| + 1 else |text|
  {
    hide Reading, Stripped, HoldsString, Over, EndsUnpaired;
    StringAt(a, text);
    var l: int := 0;
    while a[l] != 0
      invariant 0 <= l <= |text|
      decreases |text| - l
    {
      l := l + 1;
    }
    var s, t: nat := 0, 0;
    ghost var n, whole := |text|, Stripped(text);
    assert text[0..] == text;
    ReadingStart(a, text, whole);
    while a[t] != 0 && l > 0
      invariant 0 <= s <= t < a.Length && n < a.Length
      invariant t <= n ==> EndsUnpaired(text[t..]) == EndsUnpaired(text)
      invariant t > n ==> EndsUnpaired(text) && t == n + 1
      invariant t <= n ==> Reading(a[..], text, s, t, whole, Stripped(text[t..])) && l == n - t
      invariant t > n ==> l < 0 && s <= n && Over(a[..], s, whole)
      decreases l
    {
      ghost var now, s0, t0 := a[..], s, t;
      ReadingAt(now, text, s, t, whole, Stripped(text[t..]));
      StripStep(now, text, s, t, whole);
      UnpairedStep(text, t);
      if a[t] == SLASH {
        t := t + 1;
        a[s] := a[t];
        assert a[..] == now[s0 := now[t0 + 1]];
        s, t := s + 1, t + 1;
        l := l - 2;
      } else {
        if s != t {
          a[s] := a[t];
          s, t := s + 1, t + 1;
        } else {
          s, t := s + 1, t + 1;
        }
        assert a[..] == now[s0 := now[t0]];
        l := l - 1;
      }
    }
    if t <= n { ReadingAt(a[..], text, s, t, whole, Stripped(text[t..])); }
    StrippedEnd(text);
    PairedEnd(text);
    furthest := t;
    ghost var now := a[..];
    if s != t {
      a[s] := 0;
    }
    assert a[..s] == now[..s];
    if t <= n {
      MakesString(a, s, whole);
    } else {
      OverAt(now, s, whole);
      assert a[..s - 1] == now[..s - 1];
      MakesString(a, s - 1, whole);
    }
  }

  /** The NUL has been copied behind all that is to stay. */
  ghost predicate Over(a: seq<byte>, s: nat, whole: seq<byte>) {
    0 < s <= |a| && a[..s - 1] == whole && a[s - 1] == 0
  }

  lemma OverAt(a: seq<byte>, s: nat, whole: seq<byte>)
    requires Over(a, s, whole)
    ensures 0 < s <= |a| && a[..s - 1] == whole && a[s - 1] == 0
  {
  }

  /** One round of StripSlashes. */
  lemma StripStep(a: seq<byte>, text: seq<byte>, s: nat, t: nat, whole: seq<byte>)
    requires t < |text| && Reading(a, text, s, t, whole, Stripped(text[t..]))
    ensures s <= t && t + 1 < |a| && a[t] == text[t]
    ensures text[t] != SLASH ==> Reading(a[s := a[t]], text, s + 1, t + 1, whole, Stripped(text[t + 1..]))
    ensures text[t] == SLASH && t + 1 < |text| ==>
      Reading(a[s := a[t + 1]], text, s + 1, t + 2, whole, Stripped(text[t + 2..]))
    ensures text[t] == SLASH && t + 1 == |text| ==> Over(a[s := a[t + 1]], s + 1, whole)
  {
    hide *;
    ReadingAt(a, text, s, t, whole, Stripped(text[t..]));
    SlashStep(text, t);
    if text[t] != SLASH {
      ReadOn(a, text, s, t, whole, Stripped(text[t..]), text[t], t + 1, Stripped(text[t + 1..]));
    } else if t + 1 < |text| {
      ReadOn(a, text, s, t, whole, Stripped(text[t..]), text[t + 1], t + 2, Stripped(text[t + 2..]));
    } else {
      ReadOver(a, text, s, t, whole);
    }
  }

  lemma ReadOver(a: seq<byte>, text: seq<byte>, s: nat, t: nat, whole: seq<byte>)
    requires Reading(a, text, s, t, whole, []) && s < |a|
    ensures Over(a[s := 0], s + 1, whole)
  {
  }

  lemma StrippedEnd(text: seq<byte>)
    requires forall k :: 0 <= k < |text| ==> text[k] != 0
    ensures Stripped(text[|text|..]) == [] && forall k :: 0 <= k < |Stripped(text)| ==> Stripped(text)[k] != 0
  {
    StrippedClean(text);
    assert text[|text|..] == [];
  }


  lemma ReadingAt(a: seq<byte>, text: seq<byte>, s: nat, t: nat, whole: seq<byte>, rest: seq<byte>)
    requires Reading(a, text, s, t, whole, rest)
    ensures s <= t <= |text| < |a| && whole == a[..s] + rest && a[|text|] == 0
    ensures t < |text| ==> a[t] == text[t] && (t + 1 < |text| ==> a[t + 1] == text[t + 1])
  {
    assert a[t..|text| + 1][|text| - t] == 0;
    if t < |text| {
      assert a[t..|text| + 1][0] == text[t];
      if t + 1 < |text| { assert a[t..|text| + 1][1] == text[t + 1]; }
    }
  }

  /** One byte is written, and reading goes on at t'. */
  lemma ReadOn(a: seq<byte>, text: seq<byte>, s: nat, t: nat, whole: seq<byte>, rest: seq<byte>, c: byte, t': nat,
          rest': seq<byte>)
    requires Reading(a, text, s, t, whole, rest) && rest == [c] + rest' && t < t' <= |text|
    ensures Reading(a[s := c], text, s + 1, t', whole, rest')
  {
    assert a[t'..|text| + 1] == a[t..|text| + 1][t' - t..] == text[t'..] + [0];
  }

  /** The loop has read text up to t and written `whole` less `rest` up to s. */
  ghost predicate Reading(a: seq<byte>, text: seq<byte>, s: nat, t: nat, whole: seq<byte>, rest: seq<byte>) {
    && s <= t <= |text| < |a|
    && a[t..|text| + 1] == text[t..] + [0]
    && whole == a[..s] + rest
  }

  lemma SlashStep(text: seq<byte>, t: nat)
    requires t < |text|
    ensures Stripped(text[t..]) ==
      if text[t] != SLASH then [text[t]] + Stripped(text[t + 1..])
      else if t + 1 == |text| then []
      else [text[t + 1]] + Stripped(text[t + 2..])
  {
    assert text[t..][1..] == text[t + 1..];
    if t + 1 < |text| { assert text[t..][2..] == text[t + 2..]; }
  }

  lemma {:induction false} StrippedClean(s: seq<byte>)
    requires forall k :: 0 <= k < |s| ==> s[k] != 0
    ensures forall k :: 0 <= k < |Stripped(s)| ==> Stripped(s)[k] != 0
    ensures |Stripped(s)| <= |s|
    decreases |s|
  {
    if s == [] {
    } else if s[0] != SLASH {
      StrippedClean(s[1..]);
    } else if |s| > 1 {
      StrippedClean(s[2..]);
    }
  }

  lemma ReadTwo(a: seq<byte>, text: seq<byte>, s: nat, t: nat, whole: seq<byte>, rest: seq<byte>, rest': seq<byte>)
    requires Reading(a, text, s, t, whole, rest) && rest == [SLASH] + [SLASH] + rest' && t + 2 <= |text|
    ensures Reading(a[s := SLASH][s + 1 := SLASH], text, s + 2, t + 2, whole, rest')
  {
    hide Reading;
    ReadingAt(a, text, s, t, whole, rest);
    assert rest == [SLASH] + ([SLASH] + rest');
    ReadOn(a, text, s, t, whole, rest, SLASH, t + 1, [SLASH] + rest');
    ReadOn(a[s := SLASH], text, s + 1, t + 1, whole, [SLASH] + rest', SLASH, t + 2, rest');
  }

  lemma EscapeStep(text: seq<byte>, t: nat)
    requires t < |text|
    ensures Parsed(text[t..]) ==
      if text[t] == SLASH && t + 1 < |text|
        && Control(text[t + 1]) != [] then Control(text[t + 1]) + Parsed(text[t + 2..])
      else [text[t]] + Parsed(text[t + 1..])
  {
    assert text[t..][1..] == text[t + 1..];
    if t + 1 < |text| { assert text[t..][2..] == text[t + 2..]; }
  }

  lemma {:induction false} ParsedClean(s: seq<byte>)
    requires forall k :: 0 <= k < |s| ==> s[k] != 0
    ensures forall k :: 0 <= k < |Parsed(s)| ==> Parsed(s)[k] != 0
    ensures |Parsed(s)| <= |s|
    decreases |s|
  {
    if s != [] {
      if s[0] == SLASH && |s| > 1 && Control(s[1]) != [] { ParsedClean(s[2..]); } else { ParsedClean(s[1..]); }
    }
  }

  /** ParseEscapes: the control sequences are replaced in place. */
  method ParseEscapes(a: array<byte>, ghost text: seq<byte>)
    requires HoldsString(a, text)
    modifies a
    ensures HoldsString(a, Parsed(text))
  {
    hide Reading, Parsed, Control, HoldsString;
    StringAt(a, text);
    var l: int := 0;
    while a[l] != 0
      invariant 0 <= l <= |text|
      decreases |text| - l
    {
      l := l + 1;
    }
    var s, t: nat := 0, 0;
    ghost var n, whole := |text|, Parsed(text);
    assert text[0..] == text;
    ReadingStart(a, text, whole);
    while a[t] != 0 && l > 0
      invariant t <= n < a.Length && l == n - t && Reading(a[..], text, s, t, whole, Parsed(text[t..]))
      decreases l
    {
      ghost var now := a[..];
      ReadingAt(now, text, s, t, whole, Parsed(text[t..]));
      EscapeStep(text, t);
      if t + 1 < n { Controls(text[t + 1]); }
      if a[t] == SLASH && a[t + 1] == SLASH {
        ReadTwo(now, text, s, t, whole, Parsed(text[t..]), Parsed(text[t + 2..]));
        t := t + 2;
        a[s], a[s + 1] := SLASH, SLASH;
        s := s + 2;
        l := l - 2;
      } else if a[t] == SLASH && (a[t + 1] == 110 || a[t + 1] == 116 || a[t + 1] == 114) {
        var c: byte := if a[t + 1] == 110 then 10 else if a[t + 1] == 116 then 9 else 13;
        ReadOn(now, text, s, t, whole, Parsed(text[t..]), c, t + 2, Parsed(text[t + 2..]));
        t := t + 2;
        a[s] := c;
        s := s + 1;
        l := l - 2;
      } else {
        ReadOn(now, text, s, t, whole, Parsed(text[t..]), text[t], t + 1, Parsed(text[t + 1..]));
        assert now[s := text[t]] == if s == t then now else now[s := now[t]];
        if s != t {
          a[s] := a[t];
          s, t := s + 1, t + 1;
        } else {
          s, t := s + 1, t + 1;
        }
        l := l - 1;
      }
    }
    ReadingAt(a[..], text, s, t, whole, Parsed(text[t..]));
    ParsedEnd(text);
    ghost var now := a[..];
    if s != t {
      a[s] := 0;
    }
    assert a[..s] == now[..s];
    MakesString(a, s, whole);
  }

  lemma StringAt(a: array<byte>, text: seq<byte>)
    requires HoldsString(a, text)
    ensures |text| < a.Length && a[..|text|] == text && a[|text|] == 0 && forall k :: 0 <= k < |text| ==>
      text[k] != 0 && a[k] != 0
  {
    forall k | 0 <= k < |text| ensures a[k] != 0 { assert a[..|text|][k] == a[k]; }
  }

  lemma ReadingStart(a: array<byte>, text: seq<byte>, whole: seq<byte>)
    requires |text| < a.Length && a[..|text|] == text && a[|text|] == 0
    ensures Reading(a[..], text, 0, 0, whole, whole)
  {
  }

  lemma ParsedEnd(text: seq<byte>)
    requires forall k :: 0 <= k < |text| ==> text[k] != 0
    ensures Parsed(text[|text|..]) == [] && forall k :: 0 <= k < |Parsed(text)| ==> Parsed(text)[k] != 0
  {
    ParsedClean(text);
    assert text[|text|..] == [];
  }

  lemma MakesString(a: array<byte>, s: nat, text: seq<byte>)
    requires s < a.Length && a[..s] == text && a[s] == 0 && forall k :: 0 <= k < |text| ==> text[k] != 0
    ensures HoldsString(a, text)
  {
  }


  lemma Controls(c: byte)
    ensures Control(c) == if c == SLASH then [SLASH] + [SLASH] else if c == 110 then [10] else if c == 116 then [9]
      else if c == 114 then [13] else []
  {
  }

  // ----- AddSlashes: three replacements -----

  lemma EachSnoc(s: seq<byte>, c: byte, r: seq<byte>, x: byte)
    ensures Each(s + [x], c, r) == Each(s, c, r) + (if x == c then r else [x])
  {
    assert (s + [x])[..|s|] == s;
  }

  lemma {:induction false} EachNone(s: seq<byte>, g: seq<byte>, c: byte, r: seq<byte>)
    requires forall k :: 0 <= k < |g| ==> g[k] != c
    ensures Each(s + g, c, r) == Each(s, c, r) + g
    decreases |g|
  {
    if g == [] {
      assert s + g == s;
    } else {
      var init, x := g[..|g| - 1], g[|g| - 1];
      EachNone(s, init, c, r);
      EachSnoc(s + init, c, r, x);
      assert s + init + [x] == s + g;
      assert g == init + [x];
      hide Each;
    }
  }

  lemma OneMatches(c: byte, text: seq<byte>, k: nat, e: nat)
    requires k <= |text| && e <= |text|
    ensures Matches(Atom(Exact(c)), text, k, e) <==> e == k + 1 && text[k] == c
  {
  }

  /** Where the leftmost cuts of a single character end, each of its occurrences has been replaced. */
  lemma {:induction false} SplicedEach(c: byte, text: seq<byte>, cuts: seq<Cut>, r: seq<byte>)
    requires AreLeftmost(Atom(Exact(c)), text, cuts) && AreFound(Atom(Exact(c)), text, cuts)
    ensures LastEnd(cuts) <= |text| && Spliced(text, cuts, r) == Each(text[..LastEnd(cuts)], c, r)
    decreases |cuts|
  {
    hide *;
    if cuts == [] {
      NoCuts(text, r);
      EachEmpty(c, r);
      assert text[..0] == [];
    } else {
      var init, x := cuts[..|cuts| - 1], cuts[|cuts| - 1];
      CutsLast(Atom(Exact(c)), text, cuts, r);
      SplicedEach(c, text, init, r);
      OneMatches(c, text, x.start, x.end);
      var from := LastEnd(init);
      Gap(c, text, from, x.start);
      EachNone(text[..from], text[from..x.start], c, r);
      assert text[..from] + text[from..x.start] == text[..x.start];
      EachSnoc(text[..x.start], c, r, c);
      assert text[..x.start] + [c] == text[..x.end];
    }
  }

  lemma NoCuts(text: seq<byte>, r: seq<byte>)
    ensures LastEnd([]) == 0 && Spliced(text, [], r) == []
  {
  }

  lemma CutsLast(re: Re, text: seq<byte>, cuts: seq<Cut>, r: seq<byte>)
    requires cuts != [] && AreLeftmost(re, text, cuts) && AreFound(re, text, cuts)
    ensures var init, x := cuts[..|cuts| - 1], cuts[|cuts| - 1];
            && AreLeftmost(re, text, init) && AreFound(re, text, init)
            && LastEnd(init) <= x.start <= x.end == LastEnd(cuts) <= |text|
            && Matches(re, text, x.start, x.end) && NoneIn(re, text, LastEnd(init), x.start)
            && Spliced(text, cuts, r) == Spliced(text, init, r) + text[LastEnd(init)..x.start] + r
  {
    hide Matches, NoneIn, PlainEnd, NoneFound, Answer;
  }

  lemma Gap(c: byte, text: seq<byte>, lo: nat, hi: nat)
    requires lo <= hi <= |text| && NoneIn(Atom(Exact(c)), text, lo, hi)
    ensures forall k :: lo <= k < hi ==> text[k] != c
    ensures forall k :: 0 <= k < |text[lo..hi]| ==> text[lo..hi][k] != c
  {
    forall k: nat | lo <= k < hi ensures text[k] != c {
      assert !MatchesAt(Atom(Exact(c)), text, k);
      OneMatches(c, text, k, k + 1);
    }
  }

  lemma ReplacedEach(c: byte, text: seq<byte>, cuts: seq<Cut>, r: seq<byte>)
    requires AreLeftmost(Atom(Exact(c)), text, cuts) && AreFound(Atom(Exact(c)), text, cuts)
    requires NoneIn(Atom(Exact(c)), text, LastEnd(cuts), |text| + 1)
    ensures Replaced(text, cuts, r) == Each(text, c, r)
  {
    hide *;
    SplicedEach(c, text, cuts, r);
    ReplacedIs(text, cuts, r);
    var from := LastEnd(cuts);
    NoneBefore(Atom(Exact(c)), text, from, |text|);
    Gap(c, text, from, |text|);
    assert text[from..|text|] == text[from..];
    EachNone(text[..from], text[from..], c, r);
    assert text[..from] + text[from..] == text;
  }

  lemma ReplacedIs(text: seq<byte>, cuts: seq<Cut>, r: seq<byte>)
    requires LastEnd(cuts) <= |text|
    ensures Replaced(text, cuts, r) == Spliced(text, cuts, r) + text[LastEnd(cuts)..]
  {
    hide Spliced, LastEnd;
  }

  lemma NoneBefore(re: Re, text: seq<byte>, lo: nat, hi: nat)
    requires NoneIn(re, text, lo, hi + 1)
    ensures NoneIn(re, text, lo, hi)
  {
    hide MatchesAt;
  }

  /** One of the three passes: _RegReplace with a pattern for the character c. */
  method Pass(s: seq<byte>, c: byte, pattern: seq<byte>, r: seq<byte>) returns (s': seq<byte>, ghost overrun: bool)
    requires pattern == Quote([c]) && forall k :: 0 <= k < |s| ==> s[k] != 0
    ensures s' == Each(s, c, r)
    ensures |r| <= 2 ==> !overrun
  {
    hide *;
    var k := 0;
    while k < |s| && s[k] != c
      invariant k <= |s| && forall j :: 0 <= j < k ==> s[j] != c
    {
      k := k + 1;
    }
    if k == |s| {
      assert [] + s == s;
      EachNone([], s, c, r);
      EachEmpty(c, r);
      return s, false;
    }
    var l := |s|;
    var subject := new byte[l + 1](i requires 0 <= i <= l => if i < l then s[i] else 0);
    assert subject[..l] == s;
    QuoteParses([c]);
    LiteralIs(c);
    LiteralSimple([c]);
    OnlyEolSteady(Atom(Exact(c)));
    SinglePattern(c, s);
    MakesCString(subject, l);
    NoEmptyMoves(Atom(Exact(c)), s);
    ghost var cuts;
    var ok;
    ok, s', cuts, overrun := Replace(pattern, r, subject, l);
    FirstCut(c, s, cuts);
    AllFound(c, s, cuts);
    ReplacedEach(c, s, cuts, r);
    if |r| <= 2 { InRoom(c, s, cuts, r); }
  }

  /** Replacing "a" by "bcd" in "a": whatever cuts the loop of _RegReplace ends with, the buffer is
      overrun. */
  lemma OverrunReached(cuts: seq<Cut>)
    requires AreFound(Atom(Exact(97)), [97], cuts) && Ended(Atom(Exact(97)), [97], cuts)
    ensures Overrun([97], cuts, [98, 99, 100])
  {
    hide *;
    var re: Re, s: seq<byte> := Atom(Exact(97)), [97];
    QuoteParses([97]);
    LiteralIs(97);
    LiteralSimple([97]);
    OnlyEolSteady(re);
    SinglePattern(97, s);
    AllFound(97, s, cuts);
    if cuts == [] {
      NoCuts(s, [98, 99, 100]);
      NoneAt(re, s, 0, 2, 0, 1);
      OneMatches(97, s, 0, 1);
      assert false;
    }
    var init, x := cuts[..|cuts| - 1], cuts[|cuts| - 1];
    CutsLast(re, s, cuts, [98, 99, 100]);
    OneMatches(97, s, x.start, x.end);
    if init != [] {
      var y := init[|init| - 1];
      CutsLast(re, s, init, [98, 99, 100]);
      OneMatches(97, s, y.start, y.end);
      assert false;
    }
    assert cuts == [Cut(0, 1)];
    OverrunHappens();
  }

  lemma NoneAt(re: Re, text: seq<byte>, lo: nat, hi: nat, k: nat, e: nat)
    requires NoneIn(re, text, lo, hi) && lo <= k < hi && k <= |text| && e <= |text|
    ensures !Matches(re, text, k, e)
  {
    hide Matches;
    assert !MatchesAt(re, text, k);
  }

  lemma EachEmpty(c: byte, r: seq<byte>)
    ensures Each([], c, r) == []
  {
  }

  lemma LiteralIs(c: byte)
    ensures Literal([c]) == Atom(Exact(c))
  {
    assert [c][..0] == [];
    assert Literal([]) == Eps;
  }

  lemma SinglePattern(c: byte, s: seq<byte>)
    ensures NoOverflows(Atom(Exact(c)), s) && forall k: nat :: 1 <= k <= |s| ==> !Matches(Atom(Exact(c)), s, k, k)
  {
    LiteralIs(c);
    hide Overflows, Literal;
    forall k: nat | k <= |s| ensures !Overflows(Atom(Exact(c)), s, k) { LiteralPlain([c], s, k); }
  }

  /** The cuts are the leftmost matches, and there is none behind the last one. */
  lemma AllFound(c: byte, s: seq<byte>, cuts: seq<Cut>)
    requires var re := Atom(Exact(c)); NoBackref(re) && Encodable(re) && Steady(re) && NoOverflows(re, s)
    requires var re := Atom(Exact(c)); AreFound(re, s, cuts) && Ended(re, s, cuts)
    ensures var re := Atom(Exact(c)); AreLeftmost(re, s, cuts) && NoneIn(re, s, LastEnd(cuts), |s| + 1)
  {
    hide *;
    var re := Atom(Exact(c));
    FoundIsLeftmost(re, s, cuts);
    PlainCalm(re, s);
    CalmEnd(re, s, cuts);
    NoneEither(re, s, LastEnd(cuts), |s| + 1);
  }

  lemma CalmEnd(re: Re, s: seq<byte>, cuts: seq<Cut>)
    requires Calm(re, s) && Ended(re, s, cuts)
    ensures NoneFound(re, s, LastEnd(cuts), |s| + 1)
  {
    hide Answer, Finds;
  }

  /** A replacement of at most two bytes for each character leaves room in the first buffer. */
  lemma {:induction false} RoomEnough(c: byte, s: seq<byte>, cuts: seq<Cut>, r: seq<byte>)
    requires AreFound(Atom(Exact(c)), s, cuts) && |r| <= 2
    ensures |Spliced(s, cuts, r)| <= 2 * LastEnd(cuts) <= 2 * |s|
    ensures Allocated(s, cuts, r) == 2 * |s| + 1 && !Overrun(s, cuts, r)
    decreases |cuts|
  {
    hide *;
    var re := Atom(Exact(c));
    if cuts == [] {
      Starting(re, s, r);
      NoCuts(s, r);
    } else {
      var init, x := cuts[..|cuts| - 1], cuts[|cuts| - 1];
      LastCut(re, s, cuts);
      SnocCuts(re, s, init, x, r);
      OneMatches(c, s, x.start, x.end);
      RoomEnough(c, s, init, r);
      SnocRoom(s, init, x, r);
      GrownIs(2 * |s| + 1, |Spliced(s, cuts, r)|);
    }
  }

  lemma InRoom(c: byte, s: seq<byte>, cuts: seq<Cut>, r: seq<byte>)
    requires AreFound(Atom(Exact(c)), s, cuts) && |r| <= 2
    ensures !Overrun(s, cuts, r) && |Replaced(s, cuts, r)| < Allocated(s, cuts, r)
  {
    hide AreFound, Spliced, Overrun, Allocated;
    RoomEnough(c, s, cuts, r);
  }

  lemma MakesCString(a: array<byte>, l: nat)
    requires a.Length == l + 1 && a[l] == 0 && forall k :: 0 <= k < l ==> a[k] != 0
    ensures CString(a, l)
  {
  }

  lemma FirstCut(c: byte, s: seq<byte>, cuts: seq<Cut>)
    requires AreFound(Atom(Exact(c)), s, cuts)
    ensures cuts != [Cut(0, 0)]
  {
    if cuts == [Cut(0, 0)] { OneMatches(c, s, 0, 0); }
  }

  // What the three passes do together.

  lemma {:induction false} ThreePasses(s: seq<byte>)
    ensures Each(Each(Each(s, SLASH, [SLASH, SLASH]), RegexParse.DOLLAR, [SLASH, RegexParse.DOLLAR]), QUOTE,
      [SLASH, QUOTE]) == Escaped(s)
    decreases |s|
  {
    var d := RegexParse.DOLLAR;
    if s != [] {
      var init, x := s[..|s| - 1], s[|s| - 1];
      ThreePasses(init);
      assert s == init + [x];
      EachSnoc(init, SLASH, [SLASH, SLASH], x);
      var one := Each(init, SLASH, [SLASH, SLASH]);
      var two := Each(one, d, [SLASH, d]);
      if x == SLASH {
        EachNone(one, [SLASH, SLASH], d, [SLASH, d]);
        EachNone(two, [SLASH, SLASH], QUOTE, [SLASH, QUOTE]);
      } else {
        EachSnoc(one, d, [SLASH, d], x);
        if x == d { EachNone(two, [SLASH, d], QUOTE, [SLASH, QUOTE]); }
        else { EachSnoc(two, QUOTE, [SLASH, QUOTE], x); }
      }
      hide Each;
    }
  }

  lemma {:induction false} EachClean(s: seq<byte>, c: byte, r: seq<byte>)
    requires (forall k :: 0 <= k < |s| ==> s[k] != 0) && (forall k :: 0 <= k < |r| ==> r[k] != 0)
    ensures forall k :: 0 <= k < |Each(s, c, r)| ==> Each(s, c, r)[k] != 0
  {
    if s != [] { EachClean(s[..|s| - 1], c, r); }
  }

  lemma Patterns()
    ensures SLASH != 0 && RegexParse.DOLLAR != 0 && QUOTE != 0
    ensures Quote([SLASH]) == [SLASH, SLASH] && Quote([RegexParse.DOLLAR]) == [SLASH, RegexParse.DOLLAR]
      && Quote([QUOTE]) == [QUOTE]
  {
    assert [SLASH][..0] == [] && [RegexParse.DOLLAR][..0] == [] && [QUOTE][..0] == [];
    assert Quote([]) == [];
  }

  /** AddSlashes, as configured with quotes to be escaped. */
  method AddSlashes(s: seq<byte>) returns (r: seq<byte>, ghost overrun: bool)
    requires forall k :: 0 <= k < |s| ==> s[k] != 0
    ensures r == Escaped(s) && !overrun
  {
    hide *;
    Patterns();
    ghost var over1, over2, over3;
    r, over1 := Pass(s, SLASH, [SLASH, SLASH], [SLASH, SLASH]);
    EachClean(s, SLASH, [SLASH, SLASH]);
    ghost var one := r;
    r, over2 := Pass(r, RegexParse.DOLLAR, [SLASH, RegexParse.DOLLAR], [SLASH, RegexParse.DOLLAR]);
    EachClean(one, RegexParse.DOLLAR, [SLASH, RegexParse.DOLLAR]);
    r, over3 := Pass(r, QUOTE, [QUOTE], [SLASH, QUOTE]);
    overrun := over1 || over2 || over3;
    ThreePasses(s);
  }
}
