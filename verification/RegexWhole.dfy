/** Compiling a pattern as it is written, and then matching or searching: what the caller gets. */
module RegexWhole {
  import opened RegexSyntax
  import opened RegexProgram
  import opened RegexStructure
  import opened RegexBacktrack
  import opened RegexFirst
  import opened RegexRuns
  import opened RegexRoom
  import opened RegexCode
  import opened RegexMatcher
  import opened RegexBuffer
  import RegexParse
  import RegexPrint

  /** No attempt to match re in a text of n bytes runs out of failure points. */
  predicate Roomy(re: Re, n: nat) {
    LoopsConsume(re) && Forks(re) + PerChar(re) * n <= MAX_FAILURES
  }

  /** re_compile_pattern, and re_match at pos. */
  method CompileAndMatch(re: Re, text: seq<byte>, pos: nat) returns (r: int)
    requires RegexPrint.Printable(re) && NoBackref(re) && Encodable(re) && pos <= |text|
    ensures -2 <= r
    ensures r >= 0 ==> pos + r <= |text| && Matches(re, text, pos, pos + r)
    ensures r == -1 && Steady(re) ==> forall e: nat :: e <= |text| ==> !Matches(re, text, pos, e)
    ensures r == -2 ==> !Roomy(re, |text| - pos)
  {
    hide *;
    RegexPrint.RoundTrip(re);
    var pattern := new PatternBuffer();
    var ok, error := pattern.Compile(RegexPrint.Print(re));
    ReadBack(re);
    assert pattern.Ready() by { pattern.MeansValid(); }
    r := pattern.Match(text, pos);
    MatchMeans(re, text, pos, r);
  }

  lemma ReadBack(re: Re)
    ensures RegexParse.Ok(re).Ok? && RegexParse.Ok(re).value == re
  {
  }

  lemma MatchMeans(re: Re, text: seq<byte>, pos: nat, r: int)
    requires NoBackref(re) && Encodable(re) && -2 <= r && Right(re, text, pos, FromInt(r, pos))
    ensures pos <= |text|
    ensures r >= 0 ==> pos + r <= |text| && Matches(re, text, pos, pos + r)
    ensures r == -1 && Steady(re) ==> forall e: nat :: e <= |text| ==> !Matches(re, text, pos, e)
    ensures r == -2 ==> !Roomy(re, |text| - pos)
  {
    hide Matches, NoBackref, Encodable, Compiled, AllStarts, Harmless, PlainMatch, NeverUpdates, LoopsConsume, Forks,
      PerChar, Pristine,
      Answer;
    var p := Pristine(re);
    if r == -2 && Roomy(re, |text| - pos) {
      NoOverflow(p, re, text, pos, Overflow);
      assert false;
    }
  }

  /** re_compile_pattern, and re_search of the positions from start to start + count. */
  method CompileAndSearch(re: Re, text: seq<byte>, start: nat, count: nat) returns (r: int, end: nat)
    requires RegexPrint.Printable(re) && NoBackref(re) && Encodable(re) && start + count <= |text|
    ensures -2 <= r && (r >= 0 ==> start <= r <= start + count)
    ensures r >= 0 ==> r <= end <= |text| && Matches(re, text, r, end)
    ensures Steady(re) ==> forall k: nat, e: nat ::
      start <= k <= start + count && e <= |text| && r != -2 && (r == -1 || k < r) ==> !Matches(re, text, k, e)
    ensures r == -2 ==> !Roomy(re, |text| - start)
  {
    hide *;
    RegexPrint.RoundTrip(re);
    var pattern := new PatternBuffer();
    var ok, error := pattern.Compile(RegexPrint.Print(re));
    ReadBack(re);
    r, end := pattern.Search(text, start, count);
    SearchMeans(re, text, start, count, r, end);
  }

  lemma SearchMeans(re: Re, text: seq<byte>, start: nat, count: nat, r: int, end: nat)
    requires NoBackref(re) && Encodable(re) && start + count <= |text| && SearchRight(re, text, start, count, r)
      && (r >= 0 ==> Right(re, text, r, Found(end)))
    ensures -2 <= r && (r >= 0 ==> start <= r <= start + count)
    ensures r >= 0 ==> r <= end <= |text| && Matches(re, text, r, end)
    ensures Steady(re) ==> forall k: nat, e: nat ::
      start <= k <= start + count && e <= |text| && r != -2 && (r == -1 || k < r) ==> !Matches(re, text, k, e)
    ensures r == -2 ==> !Roomy(re, |text| - start)
  {
    hide Matches, NoBackref, Encodable, Compiled, Steady, PlainMatch, NeverUpdates, LoopsConsume, Forks, PerChar,
      Pristine, Answer, SearchFinds, AllStarts, Harmless, NoneFound;
    if Steady(re) && r != -2 {
      forall k: nat, e: nat | start <= k <= start + count && e <= |text| && (r == -1 || k < r)
        ensures !Matches(re, text, k, e) {
        assert !MatchesAt(re, text, k);
      }
    }
    if r == -2 {
      var k := OverflowPlace(re, text, start, count);
      AnswerRight(re, text, k, Overflow);
      if Roomy(re, |text| - start) {
        LessText(Forks(re), PerChar(re), |text| - k, |text| - start);
        NoOverflow(Pristine(re), re, text, k, Overflow);
        assert false;
      }
    }
  }

  lemma OverflowPlace(re: Re, text: seq<byte>, start: nat, count: nat) returns (k: nat)
    requires SearchFinds(re, text, start, count, -2)
    ensures start <= k <= start + count && Answer(re, text, k, Overflow)
  {
    hide Answer, NoneFound;
    k :| start <= k <= start + count && Answer(re, text, k, Overflow) && NoneFound(re, text, start, k);
  }

  lemma LessText(a: nat, per: nat, n: nat, m: nat)
    requires n <= m && a + per * m <= MAX_FAILURES
    ensures a + per * n <= MAX_FAILURES
  {
    if n < m {
      assert Need(a, per, n) <= Need(a, per, m) by { NeedLess(a, a, per, m, n); }
    }
  }
}
