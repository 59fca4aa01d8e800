/** The language of a pattern, operator by operator: sequences are cut in two, and loops into a chain. */
module RegexLanguage {
  import opened RegexSyntax
  import opened RegexTail

  /** Each stretch from one cut to the next is a match of b. */
  ghost predicate Chain(b: Re, text: seq<byte>, cuts: seq<nat>, i: nat, j: nat) {
    && cuts != [] && cuts[0] == i && cuts[|cuts| - 1] == j && (forall k :: 0 <= k < |cuts| ==> cuts[k] <= |text|)
    && forall k :: 0 <= k < |cuts| - 1 ==> Matches(b, text, cuts[k], cuts[k + 1])
  }

  /** What the operators mean, for a sequence cut at k, for a choice, and for what may be missing. */
  lemma Combined(l: Re, r: Re, text: seq<byte>, i: nat, j: nat, g: byte)
    requires i <= |text| && j <= |text|
    ensures Matches(Seq(l, r), text, i, j) <==>
      exists k: nat | k <= |text| :: Matches(l, text, i, k) && Matches(r, text, k, j)
    ensures Matches(Alt(l, r), text, i, j) <==> Matches(l, text, i, j) || Matches(r, text, i, j)
    ensures Matches(Opt(l), text, i, j) <==> i == j || Matches(l, text, i, j)
    ensures Matches(Plus(l), text, i, j) <==>
      exists k: nat | k <= |text| :: Matches(l, text, i, k) && Matches(Star(l), text, k, j)
    ensures Matches(Group(g, l), text, i, j) <==> Matches(l, text, i, j)
    ensures Matches(Eps, text, i, j) <==> i == j
  {
    hide *;
    Cut(l, r, text, i, j);
    PlusCut(l, text, i, j);
    Others(l, r, text, i, j, g);
  }

  lemma Others(l: Re, r: Re, text: seq<byte>, i: nat, j: nat, g: byte)
    requires i <= |text| && j <= |text|
    ensures Matches(Alt(l, r), text, i, j) <==> Matches(l, text, i, j) || Matches(r, text, i, j)
    ensures Matches(Opt(l), text, i, j) <==> i == j || Matches(l, text, i, j)
    ensures Matches(Group(g, l), text, i, j) <==> Matches(l, text, i, j)
    ensures Matches(Eps, text, i, j) <==> i == j
  {
  }

  lemma PlusCut(b: Re, text: seq<byte>, i: nat, j: nat)
    requires i <= |text| && j <= |text|
    ensures Matches(Plus(b), text, i, j) <==>
      exists k: nat | k <= |text| :: Matches(b, text, i, k) && Matches(Star(b), text, k, j)
  {
    if Matches(Plus(b), text, i, j) {
      var d := MatchTree(Plus(b), text, i, j);
      TreeMatches(d.fst, b, text, i, d.mid);
      TreeMany(d.snd, b, text, d.mid, j);
      assert Matches(Star(b), text, d.mid, j);
    }
    if k: nat :| k <= |text| && Matches(b, text, i, k) && Matches(Star(b), text, k, j) {
      Forward(b, text, i, k);
      Forward(Star(b), text, k, j);
      assert Many(b, text, k, j);
    }
  }

  lemma Cut(l: Re, r: Re, text: seq<byte>, i: nat, j: nat)
    requires i <= |text| && j <= |text|
    ensures Matches(Seq(l, r), text, i, j) <==>
      exists k: nat | k <= |text| :: Matches(l, text, i, k) && Matches(r, text, k, j)
  {
    hide Many;
    if k: nat :| k <= |text| && Matches(l, text, i, k) && Matches(r, text, k, j) {
      Forward(l, text, i, k);
      Forward(r, text, k, j);
    }
  }

  /** A star matches what a chain of matches of its body leads through. */
  lemma StarIsChain(b: Re, text: seq<byte>, i: nat, j: nat)
    requires i <= |text| && j <= |text|
    ensures Matches(Star(b), text, i, j) <==>
      exists cuts :: Chain(b, text, cuts, i, j)
  {
    hide Matches, Chain;
    StarIs(b, text, i, j);
    if Many(b, text, i, j) {
      var cuts := ManyChain(b, text, i, j);
    }
    if cuts :| Chain(b, text, cuts, i, j) {
      ChainMany(b, text, cuts, i, j);
    }
  }

  lemma StarIs(b: Re, text: seq<byte>, i: nat, j: nat)
    requires i <= |text| && j <= |text|
    ensures Matches(Star(b), text, i, j) <==> Many(b, text, i, j)
  {
  }

  lemma {:induction false} ManyChain(b: Re, text: seq<byte>, i: nat, j: nat) returns (cuts: seq<nat>)
    requires i <= |text| && j <= |text| && Many(b, text, i, j)
    ensures Chain(b, text, cuts, i, j)
    decreases if j >= i then j - i else 0
  {
    hide Matches;
    if i == j {
      cuts := [i];
    } else {
      var k :| i < k <= j && Matches(b, text, i, k) && Many(b, text, k, j);
      var rest := ManyChain(b, text, k, j);
      cuts := [i] + rest;
      forall m | 0 <= m < |cuts| - 1 ensures Matches(b, text, cuts[m], cuts[m + 1]) {
        if m > 0 {
          var n := m - 1;
          assert Matches(b, text, rest[n], rest[n + 1]);
        }
      }
    }
  }

  lemma {:induction false} ChainMany(b: Re, text: seq<byte>, cuts: seq<nat>, i: nat, j: nat)
    requires Chain(b, text, cuts, i, j)
    ensures i <= j <= |text| && Many(b, text, i, j)
    decreases |cuts|
  {
    hide Matches;
    if |cuts| > 1 {
      var rest := cuts[1..];
      forall m | 0 <= m < |rest| - 1 ensures Matches(b, text, rest[m], rest[m + 1]) {
        var n := m + 1;
        assert Matches(b, text, cuts[n], cuts[n + 1]);
      }
      ChainMany(b, text, rest, rest[0], j);
      var x := 0;
      assert Matches(b, text, cuts[x], cuts[x + 1]);
      Forward(b, text, cuts[0], cuts[1]);
    }
  }
}
