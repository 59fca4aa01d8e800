/** Plain backtracking over a compiled pattern: star jumps are ordinary jumps and nothing is
    rewritten.  `room` is the number of failure points that may still be pushed. */
module RegexBacktrack {
  import opened RegexSyntax
  import opened RegexProgram
  import opened RegexStructure

  const MAX_FAILURES: nat := 4100

  datatype Outcome = Found(end: nat) | Fail | Overflow

  /** Decreases at every step that neither consumes text nor pushes.  A star jump back to its
      failure jump counts as a step forward, because what follows is a push. */
  ghost function Rank(p: Program, pc: int): nat
    requires 0 <= pc < |p|
  {
    if p[pc].Fork? then (if p[pc].alt < |p| then 2 * (|p| - p[pc].alt) + 1 else 0) else 2 * (|p| - pc)
  }

  lemma RankFalls(p: Program, S: set<int>, pc: int)
    requires Sound(p, S) && pc in S
    ensures LocalOk(p, S, pc) && 0 <= pc < |p|
    ensures !p[pc].End? && !p[pc].Bad? ==> p[pc].next in S && 0 <= p[pc].next < |p|
    ensures p[pc].Fork? || p[pc].Dummy? ==> p[pc].alt in S && 0 <= p[pc].alt < |p|
    ensures forall q :: Leads(p[pc], q) ==> q in S && LocalOk(p, S, q)
    ensures p[pc].Fork? ==> Rank(p, p[pc].alt) < Rank(p, pc)
    ensures !p[pc].Fork? && !p[pc].End? ==> Rank(p, p[pc].next) < Rank(p, pc)
  {
  }

  ghost function Backtrack(p: Program, S: set<int>, text: seq<byte>, pc: int, t: nat, room: nat): Outcome
    requires Sound(p, S) && pc in S && t <= |text|
    decreases room, |text| - t, if 0 <= pc < |p| then Rank(p, pc) else 0
  {
    hide Sound, LocalOk;
    RankFalls(p, S, pc);
    var i := p[pc];
    if i.End? then Found(t)
    else if !i.Passes(text, t) then Fail
    else if i.Fork? || i.Dummy? then
      if room == 0 then Overflow
      else
        var r := Backtrack(p, S, text, i.next, t, room - 1);
        if r.Fail? && i.Fork? then Backtrack(p, S, text, i.alt, t, room) else r
    else Backtrack(p, S, text, i.next, t + i.Width(), room)
  }

  lemma {:induction false} BacktrackSound(p: Program, S: set<int>, text: seq<byte>, pc: int, t: nat, room: nat)
      returns (n: nat)
    requires Sound(p, S) && pc in S && t <= |text| && Backtrack(p, S, text, pc, t, room).Found?
    ensures Acc(p, text, pc, t, Backtrack(p, S, text, pc, t, room).end, n)
    decreases room, |text| - t, if 0 <= pc < |p| then Rank(p, pc) else 0
  {
    hide Sound, LocalOk;
    RankFalls(p, S, pc);
    var i := p[pc];
    if i.End? {
      n := 0;
    } else if i.Fork? || i.Dummy? {
      var r := Backtrack(p, S, text, i.next, t, room - 1);
      if r.Fail? {
        n := BacktrackSound(p, S, text, i.alt, t, room);
      } else {
        n := BacktrackSound(p, S, text, i.next, t, room - 1);
      }
      n := n + 1;
    } else {
      n := BacktrackSound(p, S, text, i.next, t + i.Width(), room);
      n := n + 1;
    }
  }

  lemma {:induction false} BacktrackComplete(p: Program, S: set<int>, text: seq<byte>, pc: int, t: nat, room: nat,
          e: nat, n: nat)
    requires Sound(p, S) && pc in S && t <= |text| && Backtrack(p, S, text, pc, t, room).Fail?
    ensures !Acc(p, text, pc, t, e, n)
    decreases room, |text| - t, if 0 <= pc < |p| then Rank(p, pc) else 0
  {
    hide Sound, LocalOk;
    RankFalls(p, S, pc);
    var i := p[pc];
    if n > 0 && i.Passes(text, t) {
      if i.Fork? || i.Dummy? {
        BacktrackComplete(p, S, text, i.next, t, room - 1, e, n - 1);
        if i.Fork? { BacktrackComplete(p, S, text, i.alt, t, room, e, n - 1); }
      } else {
        BacktrackComplete(p, S, text, i.next, t + i.Width(), room, e, n - 1);
      }
    }
  }

  /** A result reached without overflow does not depend on the room there was. */
  lemma {:induction false} MoreRoom(p: Program, S: set<int>, text: seq<byte>, pc: int, t: nat, room: nat, more: nat)
    requires Sound(p, S) && pc in S && t <= |text| && room <= more
    requires !Backtrack(p, S, text, pc, t, room).Overflow?
    ensures Backtrack(p, S, text, pc, t, more) == Backtrack(p, S, text, pc, t, room)
    decreases room, |text| - t, if 0 <= pc < |p| then Rank(p, pc) else 0
  {
    hide Sound, LocalOk;
    RankFalls(p, S, pc);
    var i := p[pc];
    if !i.End? && i.Passes(text, t) {
      if i.Fork? || i.Dummy? {
        MoreRoom(p, S, text, i.next, t, room - 1, more - 1);
        if Backtrack(p, S, text, i.next, t, room - 1).Fail? && i.Fork? { MoreRoom(p, S, text, i.alt, t, room, more); }
      } else {
        MoreRoom(p, S, text, i.next, t + i.Width(), room, more);
      }
    }
  }

  /** There is room for every way from pc, whether backtracking takes it or not. */
  ghost predicate RoomFor(p: Program, S: set<int>, text: seq<byte>, pc: int, t: nat, room: nat)
    requires Sound(p, S) && pc in S && t <= |text|
    decreases room, |text| - t, if 0 <= pc < |p| then Rank(p, pc) else 0
  {
    hide Sound, LocalOk;
    RankFalls(p, S, pc);
    var i := p[pc];
    if i.End? || !i.Passes(text, t) then true
    else if i.Fork? || i.Dummy? then
      room > 0 && RoomFor(p, S, text, i.next, t, room - 1) && (i.Fork? ==> RoomFor(p, S, text, i.alt, t, room))
    else RoomFor(p, S, text, i.next, t + i.Width(), room)
  }

  lemma {:induction false} RoomForMore(p: Program, S: set<int>, text: seq<byte>, pc: int, t: nat, room: nat, more: nat)
    requires Sound(p, S) && pc in S && t <= |text| && room <= more && RoomFor(p, S, text, pc, t, room)
    ensures RoomFor(p, S, text, pc, t, more)
    decreases room, |text| - t, if 0 <= pc < |p| then Rank(p, pc) else 0
  {
    hide Sound, LocalOk;
    RankFalls(p, S, pc);
    var i := p[pc];
    if !i.End? && i.Passes(text, t) {
      if i.Fork? || i.Dummy? {
        RoomForMore(p, S, text, i.next, t, room - 1, more - 1);
        if i.Fork? { RoomForMore(p, S, text, i.alt, t, room, more); }
      } else {
        RoomForMore(p, S, text, i.next, t + i.Width(), room, more);
      }
    }
  }

  lemma {:induction false} RoomSuffices(p: Program, S: set<int>, text: seq<byte>, pc: int, t: nat, room: nat)
    requires Sound(p, S) && pc in S && t <= |text| && RoomFor(p, S, text, pc, t, room)
    ensures !Backtrack(p, S, text, pc, t, room).Overflow?
    decreases room, |text| - t, if 0 <= pc < |p| then Rank(p, pc) else 0
  {
    hide Sound, LocalOk;
    RankFalls(p, S, pc);
    var i := p[pc];
    if !i.End? && i.Passes(text, t) {
      if i.Fork? || i.Dummy? {
        RoomSuffices(p, S, text, i.next, t, room - 1);
        if i.Fork? { RoomSuffices(p, S, text, i.alt, t, room); }
      } else {
        RoomSuffices(p, S, text, i.next, t + i.Width(), room);
      }
    }
  }

  /** There is room for every way of matching re at position pos. */
  ghost predicate MatchRoom(p: Program, re: Re, text: seq<byte>, pos: nat)
    requires Compiled(p, re) && NoBackref(re) && pos <= |text|
  {
    CompiledSound(p, re);
    RoomFor(p, AllStarts(re), text, 0, pos, MAX_FAILURES)
  }

  /** The outcome of matching compiled pattern p of re at position pos, without any rewriting. */
  ghost function PlainMatch(p: Program, re: Re, text: seq<byte>, pos: nat): Outcome
    requires Compiled(p, re) && NoBackref(re) && pos <= |text|
  {
    CompiledSound(p, re);
    Backtrack(p, AllStarts(re), text, 0, pos, MAX_FAILURES)
  }

  /** Plain backtracking decides the language of the pattern, unless it runs out of room. */
  lemma PlainMatchCorrect(p: Program, re: Re, text: seq<byte>, pos: nat)
    requires Compiled(p, re) && NoBackref(re) && pos <= |text|
    ensures PlainMatch(p, re, text, pos).Found? ==>
      pos <= PlainMatch(p, re, text, pos).end <= |text| && Matches(re, text, pos, PlainMatch(p, re, text, pos).end)
    ensures PlainMatch(p, re, text, pos).Fail? ==> forall e: nat :: e <= |text| ==> !Matches(re, text, pos, e)
  {
    hide Matches, Fits, AllStarts;
    CompiledSound(p, re);
    var S := AllStarts(re);
    match PlainMatch(p, re, text, pos)
    case Found(e) =>
      var n := BacktrackSound(p, S, text, 0, pos, MAX_FAILURES);
      AccForward(p, text, 0, pos, e, n);
      assert exists k: nat :: Acc(p, text, 0, pos, e, k);
      CodeMeansPattern(p, re, text, pos, e);
    case Fail =>
      forall e: nat | e <= |text|
        ensures !Matches(re, text, pos, e)
      {
        CodeMeansPattern(p, re, text, pos, e);
        if n: nat :| Acc(p, text, 0, pos, e, n) {
          BacktrackComplete(p, S, text, 0, pos, MAX_FAILURES, e, n);
        }
      }
    case Overflow =>
  }

  lemma {:induction false} AccForward(p: Program, text: seq<byte>, pc: int, t: nat, e: nat, n: nat)
    requires t <= |text| && Acc(p, text, pc, t, e, n)
    ensures t <= e <= |text|
    decreases n
  {
    if !p[pc].End? {
      if p[pc].Passes(text, t) && Acc(p, text, p[pc].next, t + p[pc].Width(), e, n - 1) {
        AccForward(p, text, p[pc].next, t + p[pc].Width(), e, n - 1);
      } else {
        AccForward(p, text, p[pc].alt, t, e, n - 1);
      }
    }
  }
}
