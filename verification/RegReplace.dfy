/** _RegReplace (src/reg.c): replaces all matches of a pattern in a string, from left to right. */
module RegReplace {
  import opened RegexSyntax
  import opened RegexProgram
  import opened RegexStructure
  import opened RegexBacktrack
  import opened RegexFirst
  import opened RegexMachine
  import opened RegexRuns
  import opened RegexCode
  import opened RegexMatcher
  import opened RegexBuffer
  import RegexParse
  import RegexLoss
  import RegexRoom
  import RegexTail

  // ----- what replacing means -----

  /** A matched stretch of the text. */
  datatype Cut = Cut(start: nat, end: nat)

  function LastEnd(cuts: seq<Cut>): nat {
    if cuts == [] then 0 else cuts[|cuts| - 1].end
  }

  /** The cuts are matches that do not overlap, from left to right, and between two of them there is
      no place where the matcher finds a match. */
  ghost predicate AreFound(re: Re, text: seq<byte>, cuts: seq<Cut>)
    decreases |cuts|
  {
    cuts == [] ||
    var init, c := cuts[..|cuts| - 1], cuts[|cuts| - 1];
    && AreFound(re, text, init)
    && LastEnd(init) <= c.start <= c.end <= |text| && Matches(re, text, c.start, c.end)
    && NoneFound(re, text, LastEnd(init), c.start) && Answer(re, text, c.start, Found(c.end))
  }

  /** The cuts are the leftmost matches: no match begins between two cuts, and each cut ends where
      plain backtracking ends a match that begins there. */
  ghost predicate AreLeftmost(re: Re, text: seq<byte>, cuts: seq<Cut>)
    decreases |cuts|
  {
    cuts == [] ||
    var init, c := cuts[..|cuts| - 1], cuts[|cuts| - 1];
    && AreLeftmost(re, text, init)
    && LastEnd(init) <= c.start <= c.end <= |text| && NoneIn(re, text, LastEnd(init), c.start)
    && PlainEnd(re, text, c.start, c.end)
  }

  ghost predicate PlainEnd(re: Re, text: seq<byte>, k: nat, e: nat) {
    Compiled(Pristine(re), re) && NoBackref(re) && k <= |text| && PlainMatch(Pristine(re), re, text, k) == Found(e)
  }

  /** The text up to the end of the last cut, with the cuts replaced. */
  function Spliced(text: seq<byte>, cuts: seq<Cut>, replace: seq<byte>): seq<byte>
    decreases |cuts|
  {
    if cuts == [] then []
    else
      var init, c := cuts[..|cuts| - 1], cuts[|cuts| - 1];
      Spliced(text, init, replace) + (if LastEnd(init) <= c.start <= |text| then text[LastEnd(init)..c.start] else [])
        + replace
  }

  /** The whole text with the cuts replaced. */
  function Replaced(text: seq<byte>, cuts: seq<Cut>, replace: seq<byte>): seq<byte> {
    Spliced(text, cuts, replace) + (if LastEnd(cuts) <= |text| then text[LastEnd(cuts)..] else [])
  }

  lemma SnocCuts(re: Re, text: seq<byte>, cuts: seq<Cut>, c: Cut, replace: seq<byte>)
    requires LastEnd(cuts) <= c.start <= c.end <= |text|
    ensures AreFound(re, text, cuts + [c]) <==>
      && AreFound(re, text, cuts) && Matches(re, text, c.start, c.end)
      && NoneFound(re, text, LastEnd(cuts), c.start) && Answer(re, text, c.start, Found(c.end))
    ensures AreLeftmost(re, text, cuts + [c]) <==>
      AreLeftmost(re, text, cuts) && NoneIn(re, text, LastEnd(cuts), c.start) && PlainEnd(re, text, c.start, c.end)
    ensures Spliced(text, cuts + [c], replace) == Spliced(text, cuts, replace) + text[LastEnd(cuts)..c.start] + replace
    ensures LastEnd(cuts + [c]) == c.end
  {
    hide Matches, NoneIn, PlainEnd, NoneFound, Answer;
    assert (cuts + [c])[..|cuts|] == cuts;
  }

  lemma LastCut(re: Re, text: seq<byte>, cuts: seq<Cut>)
    requires cuts != [] && (AreFound(re, text, cuts) || AreLeftmost(re, text, cuts))
    ensures var init, c := cuts[..|cuts| - 1], cuts[|cuts| - 1];
            cuts == init + [c] && LastEnd(init) <= c.start <= c.end <= |text| && LastEnd(cuts) == c.end
  {
    hide Matches, NoneIn, PlainEnd, NoneFound, Answer;
  }

  // ----- the room in the result's buffer -----

  /** The bytes allocated once the cuts have been made: at first twice the string's length and one, and
      more as soon as a string of more bytes than that is about to be made. */
  function Allocated(text: seq<byte>, cuts: seq<Cut>, replace: seq<byte>): nat
    decreases |cuts|
  {
    if cuts == [] then 2 * |text| + 1
    else Grown(Allocated(text, cuts[..|cuts| - 1], replace), |Spliced(text, cuts, replace)|)
  }

  function Grown(allo: nat, n: nat): (allo': nat)
    ensures n <= allo'
  {
    if n > allo then 1 + allo + 2 * n else allo
  }

  /** One byte too few is allocated for the NUL of a string that fills the buffer exactly. */
  predicate Overrun(text: seq<byte>, cuts: seq<Cut>, replace: seq<byte>)
    decreases |cuts|
  {
    cuts != [] &&
    var init := cuts[..|cuts| - 1];
    Overrun(text, init, replace) || |Spliced(text, cuts, replace)| == Allocated(text, init, replace)
  }

  lemma SnocRoom(text: seq<byte>, cuts: seq<Cut>, c: Cut, replace: seq<byte>)
    ensures var n := |Spliced(text, cuts + [c], replace)|;
      && Allocated(text, cuts + [c], replace) == Grown(Allocated(text, cuts, replace), n)
      && (Overrun(text, cuts + [c], replace) <==> Overrun(text, cuts, replace) || n == Allocated(text, cuts, replace))
  {
    hide Spliced;
    assert (cuts + [c])[..|cuts|] == cuts;
  }

  /** "a" replaced by "bcd" in "a" takes four bytes, and three are allocated. */
  lemma OverrunHappens()
    ensures Overrun([97], [Cut(0, 1)], [98, 99, 100])
  {
    assert [Cut(0, 1)][..0] == [];
    assert Spliced([97], [], [98, 99, 100]) == [];
    assert |Spliced([97], [Cut(0, 1)], [98, 99, 100])| == 3;
  }

  // ----- the string -----

  /** a holds a C string of l bytes. */
  ghost predicate CString(a: array<byte>, l: nat)
    reads a
  {
    a.Length == l + 1 && a[l] == 0 && forall k :: 0 <= k < l ==> a[k] != 0
  }

  /** strcat(buf, &a[i]): copies up to the next NUL, at n. */
  method StrCat(buf: seq<byte>, a: array<byte>, i: nat, ghost n: nat) returns (buf': seq<byte>)
    requires i <= n < a.Length && a[n] == 0 && forall k :: i <= k < n ==> a[k] != 0
    ensures buf' == buf + a[i..n]
  {
    buf' := buf;
    var j := i;
    while a[j] != 0
      invariant i <= j <= n && buf' == buf + a[i..j]
      decreases n - j
    {
      assert a[i..j + 1] == a[i..j] + [a[j]];
      buf' := buf' + [a[j]];
      j := j + 1;
    }
  }

  // ----- the loop -----

  /** What has been put together when the cuts have been made. */
  ghost predicate Progress(re: Re, text: seq<byte>, replace: seq<byte>, cuts: seq<Cut>, buf: seq<byte>) {
    AreFound(re, text, cuts) && buf == Spliced(text, cuts, replace)
  }

  lemma FoundHere(re: Re, text: seq<byte>, i: nat, r: nat, end: nat)
    requires i <= |text| && SearchRight(re, text, i, |text| - i, r) && Right(re, text, r, Found(end))
    ensures i <= r <= end <= |text| && Matches(re, text, r, end) && NoneFound(re, text, i, r)
      && Answer(re, text, r, Found(end))
  {
    hide Compiled, NoBackref, Matches, PlainMatch, NoneIn, MatchesAt, NoneFound, Answer;
  }

  lemma ProgressMore(re: Re, text: seq<byte>, replace: seq<byte>, cuts: seq<Cut>, buf: seq<byte>, r: nat, end: nat)
    requires Progress(re, text, replace, cuts, buf) && LastEnd(cuts) <= |text|
    requires SearchRight(re, text, LastEnd(cuts), |text| - LastEnd(cuts), r) && Right(re, text, r, Found(end))
    ensures LastEnd(cuts) <= r <= end <= |text| && Answer(re, text, r, Found(end)) && AreFound(re, text, cuts)
    ensures Progress(re, text, replace, cuts + [Cut(r, end)], buf + text[LastEnd(cuts)..r] + replace)
    ensures LastEnd(cuts + [Cut(r, end)]) == end
    ensures |buf + text[LastEnd(cuts)..r] + replace| == |Spliced(text, cuts + [Cut(r, end)], replace)|
  {
    hide SearchRight, Right, AreFound, AreLeftmost, Spliced, LastEnd, Matches, PlainEnd, NoneIn, NoneFound, Answer;
    FoundHere(re, text, LastEnd(cuts), r, end);
    SnocCuts(re, text, cuts, Cut(r, end), replace);
  }

  /** No place behind the beginning at which the loop can arrive has an empty match. */
  ghost predicate Moves(re: Re, text: seq<byte>) {
    forall cuts :: AreFound(re, text, cuts) && 0 < LastEnd(cuts) ==>
      !Answer(re, text, LastEnd(cuts), Found(LastEnd(cuts)))
  }

  /** The search from the end of the cuts has ended the loop: it has found nothing, or has run out of
      failure points. */
  ghost predicate Ended(re: Re, text: seq<byte>, cuts: seq<Cut>) {
    || NoneFound(re, text, LastEnd(cuts), |text| + 1)
    || exists k: nat ::
      LastEnd(cuts) <= k <= |text| && Answer(re, text, k, Overflow) && NoneFound(re, text, LastEnd(cuts), k)
  }

  /** _RegReplace.  The string is changed for a moment, to end the part to be copied, and restored.
      When the first match is empty and at 0, the loop ends at once and the rest of the text is lost. */
  method Replace(pattern: seq<byte>, replace: seq<byte>, subject: array<byte>, l: nat)
      returns (ok: bool, buf: seq<byte>, ghost cuts: seq<Cut>, ghost overrun: bool)
    requires CString(subject, l)
    requires var p := RegexParse.Parse(pattern);
             p.Ok? ==> NoBackref(p.value) && Encodable(p.value) && Moves(p.value, subject[..l])
    modifies subject
    ensures subject[..] == old(subject[..])
    ensures ok <==> l == 0 || RegexParse.Parse(pattern).Ok?
    ensures ok && l > 0 ==>
      var re, text := RegexParse.Parse(pattern).value, old(subject[..l]);
      && AreFound(re, text, cuts)
      && (cuts == [Cut(0, 0)] <==> Answer(re, text, 0, Found(0)))
      && (if cuts == [Cut(0, 0)] then buf == replace else buf == Replaced(text, cuts, replace) && Ended(re, text, cuts))
      && (overrun <==> Overrun(text, cuts, replace) || (cuts != [Cut(0, 0)] && |buf| == Allocated(text, cuts, replace)))
    ensures l == 0 ==> buf == []
  {
    hide *;
    cuts, buf, overrun := [], [], false;
    if l == 0 { return true, [], [], false; }
    StringParts(subject, l);
    ghost var text := subject[..l];
    var exp: PatternBuffer := new PatternBuffer();
    var error;
    ok, error := exp.Compile(pattern);
    if !ok { return; }
    exp.CompileFastmap();
    ghost var re := exp.re;
    Starting(re, text, replace);
    var i, allo := 0, 2 * l + 1;
    while true
      modifies subject, exp`fastmapAccurate, exp`canBeNull, exp`anchor, exp.fastmap, exp.buffer
      invariant exp.Valid() && subject[..] == old(subject[..]) && i == LastEnd(cuts) <= l
      invariant fresh(exp.fastmap) && fresh(exp.buffer)
      invariant Progress(re, text, replace, cuts, buf) && (cuts == [] || (i > 0 && cuts[0] != Cut(0, 0)))
      invariant cuts != [] ==> !Answer(re, text, 0, Found(0))
      invariant allo == Allocated(text, cuts, replace) && (overrun <==> Overrun(text, cuts, replace))
      decreases l - i
    {
      var ret, end := exp.Search(subject[..l], i, l - i);
      if ret < 0 {
        Finished(re, text, replace, cuts, buf, ret);
        assert subject[i..l] == text[i..];
        overrun := overrun || |buf + text[i..]| == allo;
        buf := StrCat(buf, subject, i, l);
        return;
      }
      ProgressMore(re, text, replace, cuts, buf, ret, end);
      Onward(re, text, cuts, ret, end);
      SnocRoom(text, cuts, Cut(ret, end), replace);
      GrownIs(allo, |buf| + (ret - i) + |replace|);
      var o := subject[ret];
      subject[ret] := 0;
      var newL := |buf| + |replace| + (ret - i);
      overrun := overrun || newL == allo;
      if newL > allo {
        allo := 1 + allo + 2 * newL;
      }
      assert subject[i..ret] == text[i..ret];
      buf := StrCat(buf, subject, i, ret);
      buf := buf + replace;
      subject[ret] := o;
      assert subject[..] == old(subject[..]) && subject[..l] == text;
      FirstCut(cuts, Cut(ret, end));
      cuts := cuts + [Cut(ret, end)];
      i := end;
      if ret == 0 && end == 0 {
        StoppedAtOnce(re, text, replace, cuts, buf);
        return;
      }
    }
  }

  lemma GrownIs(allo: nat, n: nat)
    ensures Grown(allo, n) == if n > allo then 1 + allo + 2 * n else allo
  {
  }

  lemma FirstCut(cuts: seq<Cut>, c: Cut)
    ensures cuts == [] ==> cuts + [c] == [c]
    ensures cuts != [] ==> (cuts + [c])[0] == cuts[0] && |cuts + [c]| > 1
  {
  }

  lemma StringParts(a: array<byte>, l: nat)
    requires CString(a, l)
    ensures a.Length == l + 1 && a[l] == 0 && forall k :: 0 <= k < l ==> a[k] != 0
  {
  }

  lemma Starting(re: Re, text: seq<byte>, replace: seq<byte>)
    ensures Progress(re, text, replace, [], []) && LastEnd([]) == 0
    ensures Allocated(text, [], replace) == 2 * |text| + 1 && !Overrun(text, [], replace)
  {
  }

  /** Nothing more is found: the rest is copied. */
  lemma Finished(re: Re, text: seq<byte>, replace: seq<byte>, cuts: seq<Cut>, buf: seq<byte>, r: int)
    requires Progress(re, text, replace, cuts, buf) && LastEnd(cuts) <= |text| && r < 0
    requires SearchRight(re, text, LastEnd(cuts), |text| - LastEnd(cuts), r)
    requires cuts != [] ==> cuts[0] != Cut(0, 0) && !Answer(re, text, 0, Found(0))
    ensures AreFound(re, text, cuts) && buf + text[LastEnd(cuts)..] == Replaced(text, cuts, replace)
      && Ended(re, text, cuts)
    ensures cuts != [Cut(0, 0)] && !Answer(re, text, 0, Found(0))
  {
    hide AreFound, Spliced, MatchesAt, Answer;
    if cuts == [] && Answer(re, text, 0, Found(0)) {
      assert Finds(re, text, 0);
      if r == -2 {
        var k: nat :| 0 <= k <= |text| && Answer(re, text, k, Overflow) && NoneFound(re, text, 0, k);
        if k == 0 { SameAnswer(re, text, 0, Overflow, Found(0)); }
      }
    }
  }

  /** The search finds the match at 0 if there is one, and a later round gets further. */
  lemma Onward(re: Re, text: seq<byte>, cuts: seq<Cut>, r: nat, end: nat)
    requires Moves(re, text) && AreFound(re, text, cuts) && LastEnd(cuts) <= |text|
      && (cuts != [] ==> LastEnd(cuts) > 0)
    requires SearchRight(re, text, LastEnd(cuts), |text| - LastEnd(cuts), r) && Right(re, text, r, Found(end))
    ensures r == end == LastEnd(cuts) ==> cuts == [] && r == 0
    ensures cuts == [] ==> (Answer(re, text, 0, Found(0)) <==> r == 0 && end == 0)
    ensures cuts != [] ==> end > 0
    ensures cuts == [] && end == 0 ==> r == 0
  {
    hide AreFound, Answer, SearchRight, Right, NoneFound, Finds, Matches;
    FoundHere(re, text, LastEnd(cuts), r, end);
    if cuts == [] && Answer(re, text, 0, Found(0)) {
      FindsAt(re, text, 0, 0);
      if r > 0 { NotFoundAt(re, text, 0, r, 0); }
      SameAnswer(re, text, 0, Found(0), Found(end));
    }
  }

  lemma FindsAt(re: Re, text: seq<byte>, k: nat, e: nat)
    requires k <= |text| && Answer(re, text, k, Found(e))
    ensures Finds(re, text, k)
  {
    hide Answer;
  }

  lemma NotFoundAt(re: Re, text: seq<byte>, lo: nat, hi: nat, k: nat)
    requires NoneFound(re, text, lo, hi) && lo <= k < hi
    ensures !Finds(re, text, k)
  {
    hide Finds;
  }

  /** The first match was empty and at 0. */
  lemma StoppedAtOnce(re: Re, text: seq<byte>, replace: seq<byte>, cuts: seq<Cut>, buf: seq<byte>)
    requires Progress(re, text, replace, cuts, buf) && cuts == [Cut(0, 0)]
    ensures AreFound(re, text, cuts) && buf == replace && Answer(re, text, 0, Found(0))
  {
    hide AreFound, Answer, Matches, NoneFound;
    SnocCuts(re, text, [], Cut(0, 0), replace);
    assert [] + [Cut(0, 0)] == cuts && text[0..0] == [];
  }

  // ----- when the loop ends -----

  /** A round of the loop that searches from i and goes on at j. */
  ghost predicate Round(re: Re, text: seq<byte>, i: nat, j: nat) {
    i <= |text| && exists r: nat ::
      SearchRight(re, text, i, |text| - i, r) && Right(re, text, r, Found(j)) && !(r == 0 && j == 0)
  }

  /** Where the loop is after each of its rounds. */
  ghost predicate Rounds(re: Re, text: seq<byte>, at: seq<nat>) {
    |at| > 0 && at[0] == 0 && forall k: nat :: k + 1 < |at| ==> Round(re, text, at[k], at[k + 1])
  }

  lemma RoundOn(re: Re, text: seq<byte>, i: nat, j: nat)
    requires Round(re, text, i, j)
    ensures i <= j <= |text|
    ensures i == j ==> i > 0 && Answer(re, text, i, Found(i))
  {
    hide SearchRight, Right, Answer, Matches;
    var r: nat :| SearchRight(re, text, i, |text| - i, r) && Right(re, text, r, Found(j)) && !(r == 0 && j == 0);
    FoundHere(re, text, i, r, j);
  }

  /** The rounds so far have made cuts. */
  lemma {:induction false} RoundCuts(re: Re, text: seq<byte>, at: seq<nat>, k: nat) returns (cuts: seq<Cut>)
    requires Rounds(re, text, at) && k < |at|
    ensures AreFound(re, text, cuts) && LastEnd(cuts) == at[k]
    decreases k
  {
    hide SearchRight, Right, Answer, Matches, NoneFound, AreFound;
    if k == 0 {
      cuts := [];
      Starting(re, text, []);
    } else {
      var init := RoundCuts(re, text, at, k - 1);
      var j: nat := k - 1;
      assert Round(re, text, at[j], at[j + 1]);
      var r: nat :| SearchRight(re, text, at[j], |text| - at[j], r) && Right(re, text, r, Found(at[k]))
        && !(r == 0 && at[k] == 0);
      FoundHere(re, text, at[j], r, at[k]);
      SnocCuts(re, text, init, Cut(r, at[k]), []);
      cuts := init + [Cut(r, at[k])];
    }
  }

  /** If no place with an empty match can be arrived at, then each round gets further, and there are no
      more rounds than there are places. */
  lemma {:induction false} RoundsAdvance(re: Re, text: seq<byte>, at: seq<nat>, k: nat)
    requires Moves(re, text) && Rounds(re, text, at) && k < |at|
    ensures k <= at[k] <= |text|
    decreases k
  {
    hide Round, Moves, AreFound, Answer;
    if k > 0 {
      var j: nat := k - 1;
      RoundsAdvance(re, text, at, j);
      assert Round(re, text, at[j], at[j + 1]);
      RoundOn(re, text, at[j], at[k]);
      if at[j] == at[k] {
        var cuts := RoundCuts(re, text, at, j);
        MovesOn(re, text, cuts);
      }
    }
  }

  lemma MovesOn(re: Re, text: seq<byte>, cuts: seq<Cut>)
    requires Moves(re, text) && AreFound(re, text, cuts) && 0 < LastEnd(cuts)
    ensures !Answer(re, text, LastEnd(cuts), Found(LastEnd(cuts)))
  {
    hide AreFound, Answer;
  }

  /** No attempt at a match runs out of failure points. */
  ghost predicate Calm(re: Re, text: seq<byte>) {
    forall k: nat :: k <= |text| ==> !Answer(re, text, k, Overflow)
  }

  lemma NotFoundNone(re: Re, text: seq<byte>, lo: nat, hi: nat)
    requires NoBackref(re) && Encodable(re) && Calm(re, text) && hi <= |text| + 1 && NoneFound(re, text, lo, hi)
      && Steady(re)
    ensures NoneIn(re, text, lo, hi)
  {
    hide NoBackref, Encodable, Answer, MatchesAt, Steady, Right;
    forall k: nat | lo <= k < hi ensures !MatchesAt(re, text, k) {
      var o := HasAnswer(re, text, k);
      if o.Found? { FindsAt(re, text, k, o.end); }
      AnswerRight(re, text, k, o);
      RightHere(re, text, k, o);
    }
  }

  /** What the matcher finds first is what a search returns. */
  lemma SearchHere(re: Re, text: seq<byte>, i: nat, r: nat, e: nat)
    requires NoBackref(re) && Encodable(re) && Calm(re, text) && i <= r <= |text|
    requires NoneFound(re, text, i, r) && Answer(re, text, r, Found(e))
    ensures SearchRight(re, text, i, |text| - i, r) && Right(re, text, r, Found(e))
  {
    hide NoBackref, Encodable, Answer, MatchesAt, Right, NoneIn, NoneFound, Calm, Steady;
    AnswerRight(re, text, r, Found(e));
    RightHere(re, text, r, Found(e));
    FindsAt(re, text, r, e);
    if Steady(re) { NotFoundNone(re, text, i, r); }
  }

  lemma RoundIntro(re: Re, text: seq<byte>, i: nat, r: nat, j: nat)
    requires i <= |text| && SearchRight(re, text, i, |text| - i, r) && Right(re, text, r, Found(j))
      && !(r == 0 && j == 0)
    ensures Round(re, text, i, j)
  {
    hide SearchRight, Right;
  }

  lemma RoundsMore(re: Re, text: seq<byte>, at: seq<nat>, j: nat)
    requires Rounds(re, text, at) && Round(re, text, at[|at| - 1], j)
    ensures Rounds(re, text, at + [j])
  {
    hide Round;
    var more := at + [j];
    forall k: nat | k + 1 < |more| ensures Round(re, text, more[k], more[k + 1]) {
      if k + 1 < |at| { assert more[k] == at[k] && more[k + 1] == at[k + 1]; }
    }
  }

  /** Cuts that lead away from the beginning are made by rounds of the loop. */
  lemma {:induction false} CutRounds(re: Re, text: seq<byte>, cuts: seq<Cut>) returns (at: seq<nat>)
    requires NoBackref(re) && Encodable(re) && Calm(re, text) && AreFound(re, text, cuts) && LastEnd(cuts) > 0
    ensures Rounds(re, text, at) && at[|at| - 1] == LastEnd(cuts)
    decreases |cuts|
  {
    hide NoBackref, Encodable, Calm, Answer, Round, Matches, NoneFound;
    var init, c := cuts[..|cuts| - 1], cuts[|cuts| - 1];
    if LastEnd(init) == 0 {
      at := [0];
    } else {
      at := CutRounds(re, text, init);
    }
    SearchHere(re, text, LastEnd(init), c.start, c.end);
    RoundIntro(re, text, LastEnd(init), c.start, c.end);
    RoundsMore(re, text, at, c.end);
    at := at + [c.end];
  }

  /** At an empty match the loop stays for as many rounds as one likes. */
  lemma {:induction false} StaysPut(re: Re, text: seq<byte>, at: seq<nat>, n: nat) returns (js: seq<nat>)
    requires NoBackref(re) && Encodable(re) && Calm(re, text) && Rounds(re, text, at)
    requires var i := at[|at| - 1]; 0 < i <= |text| && Answer(re, text, i, Found(i))
    ensures Rounds(re, text, js) && |js| == |at| + n
    decreases n
  {
    hide NoBackref, Encodable, Calm, Answer, Round;
    if n == 0 {
      js := at;
    } else {
      var i := at[|at| - 1];
      assert NoneFound(re, text, i, i);
      SearchHere(re, text, i, i, i);
      RoundIntro(re, text, i, i, i);
      RoundsMore(re, text, at, i);
      js := StaysPut(re, text, at + [i], n - 1);
    }
  }

  ghost predicate AtMost(re: Re, text: seq<byte>, n: nat) {
    forall at :: Rounds(re, text, at) ==> |at| <= n
  }

  lemma MoreRounds(re: Re, text: seq<byte>, cuts: seq<Cut>, n: nat)
    requires NoBackref(re) && Encodable(re) && Calm(re, text) && AreFound(re, text, cuts)
    requires 0 < LastEnd(cuts) && Answer(re, text, LastEnd(cuts), Found(LastEnd(cuts)))
    ensures !AtMost(re, text, n)
  {
    hide NoBackref, Encodable, Calm, Rounds, Answer, AreFound;
    var at := CutRounds(re, text, cuts);
    EndInText(re, text, cuts);
    RoundsSome(re, text, at);
    var longer := StaysPut(re, text, at, n);
  }

  /** The loop ends exactly when it cannot arrive, behind the beginning, at an empty match. */
  lemma LoopEnds(re: Re, text: seq<byte>)
    requires NoBackref(re) && Encodable(re) && Calm(re, text)
    ensures (exists n: nat :: AtMost(re, text, n)) <==> Moves(re, text)
  {
    hide NoBackref, Encodable, Calm, Rounds, Answer, AreFound;
    if n: nat :| AtMost(re, text, n) {
      forall cuts | AreFound(re, text, cuts) && 0 < LastEnd(cuts)
        ensures !Answer(re, text, LastEnd(cuts), Found(LastEnd(cuts))) {
        if Answer(re, text, LastEnd(cuts), Found(LastEnd(cuts))) { MoreRounds(re, text, cuts, n); }
      }
    }
    if Moves(re, text) {
      forall at | Rounds(re, text, at) ensures |at| <= |text| + 1 {
        RoundsSome(re, text, at);
        RoundsAdvance(re, text, at, |at| - 1);
      }
      assert AtMost(re, text, |text| + 1);
    }
  }

  lemma RoundsSome(re: Re, text: seq<byte>, at: seq<nat>)
    requires Rounds(re, text, at)
    ensures |at| > 0
  {
    hide Round;
  }

  // ----- the same by plain matching -----

  ghost predicate NoOverflows(re: Re, text: seq<byte>) {
    forall k: nat :: k <= |text| ==> !Overflows(re, text, k)
  }

  /** For a pattern that loses nothing by rewriting, the matcher's answer is that of plain backtracking. */
  lemma AnswerIsPlain(re: Re, text: seq<byte>, k: nat, e: nat)
    requires NoBackref(re) && Encodable(re) && Steady(re) && k <= |text| && !Overflows(re, text, k)
    ensures Answer(re, text, k, Found(e)) <==> PlainEnd(re, text, k, e)
    ensures !Answer(re, text, k, Overflow)
  {
    hide NoBackref, Encodable, Answer, Right, PlainMatch, Steady, Compiled, Matches;
    PristineSound(re);
    var o := HasAnswer(re, text, k);
    PlainAnswer(re, text, k, o);
    if Answer(re, text, k, Found(e)) { SameAnswer(re, text, k, o, Found(e)); }
    if Answer(re, text, k, Overflow) { SameAnswer(re, text, k, o, Overflow); }
  }

  lemma PlainAnswer(re: Re, text: seq<byte>, k: nat, o: Outcome)
    requires NoBackref(re) && Encodable(re) && Steady(re) && k <= |text| && !Overflows(re, text, k)
      && Answer(re, text, k, o)
    ensures Compiled(Pristine(re), re) && PlainMatch(Pristine(re), re, text, k) == o
  {
    hide NoBackref, Encodable, Answer, PlainMatch, Compiled, Matches, Harmless, Pristine, AllStarts;
    AnswerRight(re, text, k, o);
  }

  lemma PlainCalm(re: Re, text: seq<byte>)
    requires NoBackref(re) && Encodable(re) && Steady(re) && NoOverflows(re, text)
    ensures Calm(re, text)
  {
    hide NoBackref, Encodable, Answer, Steady, Overflows, PlainEnd;
    forall k: nat | k <= |text| ensures !Answer(re, text, k, Overflow) { AnswerIsPlain(re, text, k, 0); }
  }

  /** The cuts that the loop makes are the leftmost matches. */
  lemma {:induction false} FoundIsLeftmost(re: Re, text: seq<byte>, cuts: seq<Cut>)
    requires NoBackref(re) && Encodable(re) && Steady(re) && NoOverflows(re, text)
    ensures AreFound(re, text, cuts) <==> AreLeftmost(re, text, cuts)
    decreases |cuts|
  {
    hide NoBackref, Encodable, Answer, Steady, Overflows, Matches, NoneIn, NoneFound, PlainEnd, Calm;
    if cuts != [] {
      var init, c := cuts[..|cuts| - 1], cuts[|cuts| - 1];
      FoundIsLeftmost(re, text, init);
      if LastEnd(init) <= c.start <= c.end <= |text| {
        PlainCalm(re, text);
        AnswerIsPlain(re, text, c.start, c.end);
        NoneEither(re, text, LastEnd(init), c.start);
        if PlainEnd(re, text, c.start, c.end) { PlainEndMatches(re, text, c.start, c.end); }
      }
    }
  }

  lemma PlainEndMatches(re: Re, text: seq<byte>, k: nat, e: nat)
    requires PlainEnd(re, text, k, e)
    ensures k <= e <= |text| && Matches(re, text, k, e)
  {
    hide PlainMatch, Compiled, NoBackref, Matches, Pristine;
    PlainMatchCorrect(Pristine(re), re, text, k);
  }

  lemma NoneEither(re: Re, text: seq<byte>, lo: nat, hi: nat)
    requires NoBackref(re) && Encodable(re) && Steady(re) && Calm(re, text) && hi <= |text| + 1
    ensures NoneFound(re, text, lo, hi) <==> NoneIn(re, text, lo, hi)
  {
    hide NoBackref, Encodable, Steady, Calm, Finds, MatchesAt;
    if NoneFound(re, text, lo, hi) { NotFoundNone(re, text, lo, hi); }
    if NoneIn(re, text, lo, hi) {
      forall k: nat | lo <= k < hi ensures !Finds(re, text, k) { if Finds(re, text, k) { FindsMatch(re, text, k); } }
    }
  }

  /** No place behind the beginning that is the end of leftmost matches has an empty leftmost match. */
  ghost predicate PlainMoves(re: Re, text: seq<byte>) {
    forall cuts :: AreLeftmost(re, text, cuts) && 0 < LastEnd(cuts) ==>
      !PlainEnd(re, text, LastEnd(cuts), LastEnd(cuts))
  }

  lemma MovesPlainly(re: Re, text: seq<byte>)
    requires NoBackref(re) && Encodable(re) && Steady(re) && NoOverflows(re, text)
    ensures Moves(re, text) <==> PlainMoves(re, text)
    ensures Answer(re, text, 0, Found(0)) <==> PlainEnd(re, text, 0, 0)
  {
    hide NoBackref, Encodable, Steady, Overflows, Answer, AreFound, AreLeftmost, PlainEnd, LastEnd;
    AnswerIsPlain(re, text, 0, 0);
    forall cuts | 0 < LastEnd(cuts) && (AreFound(re, text, cuts) || AreLeftmost(re, text, cuts))
      ensures AreFound(re, text, cuts) <==> AreLeftmost(re, text, cuts)
      ensures Answer(re, text, LastEnd(cuts), Found(LastEnd(cuts))) <==>
        PlainEnd(re, text, LastEnd(cuts), LastEnd(cuts))
    {
      FoundIsLeftmost(re, text, cuts);
      EndInText(re, text, cuts);
      AnswerIsPlain(re, text, LastEnd(cuts), LastEnd(cuts));
    }
  }

  lemma EndInText(re: Re, text: seq<byte>, cuts: seq<Cut>)
    requires 0 < LastEnd(cuts) && (AreFound(re, text, cuts) || AreLeftmost(re, text, cuts))
    ensures LastEnd(cuts) <= |text|
  {
    hide AreFound, AreLeftmost;
    LastCut(re, text, cuts);
  }

  /** It is enough that no match behind the beginning is empty. */
  lemma NoEmptyMoves(re: Re, text: seq<byte>)
    requires NoBackref(re) && Encodable(re) && forall k: nat :: 1 <= k <= |text| ==> !Matches(re, text, k, k)
    ensures Moves(re, text)
  {
    hide NoBackref, Encodable, Answer, AreFound, Matches, Right, RightAnswer, Compiled;
    forall cuts | AreFound(re, text, cuts) && 0 < LastEnd(cuts)
      ensures !Answer(re, text, LastEnd(cuts), Found(LastEnd(cuts))) {
      var i := LastEnd(cuts);
      EndInText(re, text, cuts);
      if Answer(re, text, i, Found(i)) { EmptyThere(re, text, i); }
    }
  }

  /** In particular that the pattern cannot match without consuming. */
  lemma ConsumingMoves(re: Re, text: seq<byte>)
    requires NoBackref(re) && Encodable(re) && !RegexRoom.Nullable(re)
    ensures Moves(re, text)
  {
    hide *;
    forall k: nat | 1 <= k <= |text| ensures !Matches(re, text, k, k) {
      if Matches(re, text, k, k) {
        RegexRoom.EmptyNullable(re, text, k);
        assert false;
      }
    }
    NoEmptyMoves(re, text);
  }

  lemma EmptyThere(re: Re, text: seq<byte>, i: nat)
    requires NoBackref(re) && Encodable(re) && i <= |text| && Answer(re, text, i, Found(i))
    ensures Matches(re, text, i, i)
  {
    hide NoBackref, Encodable, Answer, Matches, Compiled, PlainMatch, Harmless, AllStarts, Pristine;
    AnswerRight(re, text, i, Found(i));
  }

  /** `a*` on "ab": behind the first match the loop stays where it is. */
  lemma StarStays()
    ensures !Moves(RegexTail.Loop(Exact(97), Eps), [97, 98])
  {
    hide *;
    var cl, text := Exact(97), [97, 98];
    var re := RegexTail.Loop(cl, Eps);
    RunsHere();
    RegexLoss.LoopAnswer(cl, Eps, text, 0);
    RegexLoss.LoopAnswer(cl, Eps, text, 1);
    RegexTail.LoopEncodable(cl, Eps);
    AnswerRight(re, text, 0, Found(1));
    RightMatches(re, text, 0, 1);
    OneCut(re, text, 1);
    var cuts := [Cut(0, 1)];
    if Moves(re, text) { MovesOn(re, text, cuts); }
  }

  lemma RunsHere()
    ensures RegexTail.RunEnd(Exact(97), [97, 98], 0) == 1 == RegexTail.RunEnd(Exact(97), [97, 98], 1)
    ensures RegexLoss.Row(Eps) && RegexLoss.Updates(Exact(97), Eps) && RegexLoss.RowHolds(Eps, [97, 98], 1)
  {
    RegexTail.RunEndAt(Exact(97), [97, 98], 0);
    RegexTail.RunEndAt(Exact(97), [97, 98], 1);
  }

  lemma RightMatches(re: Re, text: seq<byte>, k: nat, e: nat)
    requires Right(re, text, k, Found(e))
    ensures k <= e <= |text| && Matches(re, text, k, e)
  {
    hide Answer, Matches, Compiled, NoBackref, PlainMatch, Harmless, AllStarts, Pristine;
  }

  lemma OneCut(re: Re, text: seq<byte>, e: nat)
    requires e <= |text| && Matches(re, text, 0, e) && Answer(re, text, 0, Found(e))
    ensures AreFound(re, text, [Cut(0, e)]) && LastEnd([Cut(0, e)]) == e
  {
    hide Answer, Matches, Finds;
    SnocCuts(re, text, [], Cut(0, e), []);
    assert [] + [Cut(0, e)] == [Cut(0, e)];
  }
}
