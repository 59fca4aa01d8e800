/** The first-character map: a depth-first walk over the code that visits each jump target once. */
module RegexFastmap {
  import opened RegexSyntax
  import opened RegexProgram
  import opened RegexStructure
  import opened RegexFirst
  import opened RegexCode

  /** The walk can go on from every position in S and stays in S. */
  ghost predicate Walkable(q: Program, S: set<int>) {
    forall pc :: pc in S ==> WalkableAt(q, S, pc)
  }

  ghost predicate WalkableAt(q: Program, S: set<int>, pc: int) {
    && 0 <= pc < |q|
    && !q[pc].Bad? && !q[pc].Back?
    && (!q[pc].End? && !q[pc].Eat? ==> q[pc].next in S)
    && (q[pc].Test? || q[pc].Mem? || q[pc].Fork? ==> pc < q[pc].next)
    && (q[pc].Fork? ==> q[pc].alt in S)
  }

  lemma RewrittenWalkable(p: Program, S: set<int>, q: Program)
    requires Sound(p, S) && Rewritten(p, S, q)
    ensures Walkable(q, S)
  {
    forall pc | pc in S
      ensures WalkableAt(q, S, pc)
    {
      hide Sound, Rewritten, Updatable;
      SoundAt(p, S, pc);
      RewrittenAt(p, S, q, pc);
    }
  }

  predicate IsWalkJump(i: Instr) {
    i.Jump? || i.StarJump? || i.UpdateJump? || i.Dummy?
  }

  predicate Recorded(firsts: seq<bool>, nul: nat, g: Goal)
    requires |firsts| == 256
  {
    match g
    case Char(c) => firsts[c]
    case ToEnd => nul == 1
    case AtEol => nul != 0
  }

  /** From pc on, all that can come first has been recorded, up to jump targets that are visited and
      up to position `stop`, where the walk has still to go on. */
  ghost predicate Covered(q: Program, seen: seq<bool>, firsts: seq<bool>, nul: nat, pc: int, stop: int)
    requires |firsts| == 256
    decreases |q| - pc
  {
    || pc == stop
    || (&& 0 <= pc < |q| == |seen|
        && match q[pc]
           case End => nul == 1
           case Eat(cl, _) => forall c: byte :: Accepts(cl, c) ==> firsts[c]
           case Back(_, _) => false
           case Bad => false
           case Fork(x, y) => 0 <= y < |seen| && seen[y] && pc < x && Covered(q, seen, firsts, nul, x, stop)
           case _ =>
             if q[pc].Test? && q[pc].a.Eol? then firsts[NEWLINE] && nul != 0
             else if IsWalkJump(q[pc]) then 0 <= q[pc].next < |seen| && seen[q[pc].next]
             else pc < q[pc].next && Covered(q, seen, firsts, nul, q[pc].next, stop))
  }

  predicate More(a: seq<bool>, b: seq<bool>) {
    |a| == |b| && forall k :: 0 <= k < |a| && a[k] ==> b[k]
  }

  predicate NullMore(m: nat, n: nat) {
    m <= 2 && n <= 2 && (m == 1 ==> n == 1) && (m == 2 ==> n != 0)
  }

  lemma {:induction false} CoveredMore(q: Program, seen: seq<bool>, firsts: seq<bool>, nul: nat, seen': seq<bool>,
          firsts': seq<bool>, nul': nat, pc: int, stop: int)
    requires |firsts| == 256 && Covered(q, seen, firsts, nul, pc, stop)
    requires More(seen, seen') && More(firsts, firsts') && NullMore(nul, nul')
    ensures Covered(q, seen', firsts', nul', pc, stop)
    decreases |q| - pc
  {
    if pc != stop && (q[pc].Fork? || q[pc].Mem? || (q[pc].Test? && !q[pc].a.Eol?)) {
      CoveredMore(q, seen, firsts, nul, seen', firsts', nul', q[pc].next, stop);
    }
  }

  lemma {:induction false} CoveredTrans(q: Program, seen: seq<bool>, firsts: seq<bool>, nul: nat, pc: int, mid: int,
          stop: int)
    requires |firsts| == 256 && Covered(q, seen, firsts, nul, pc, mid)
    requires mid >= 0 ==> Covered(q, seen, firsts, nul, mid, stop)
    requires 0 <= pc
    ensures Covered(q, seen, firsts, nul, pc, stop)
    decreases |q| - pc
  {
    if pc != mid && pc != stop && (q[pc].Fork? || q[pc].Mem? || (q[pc].Test? && !q[pc].a.Eol?)) {
      CoveredTrans(q, seen, firsts, nul, q[pc].next, mid, stop);
    }
  }

  /** All that has been visited since seen0 is in S and covered up to stop. */
  ghost predicate AllCovered(q: Program, S: set<int>, seen0: seq<bool>, seen: seq<bool>, firsts: seq<bool>, nul: nat,
          stop: int)
    requires |firsts| == 256
  {
    |seen0| == |seen| == |q| &&
    forall x :: 0 <= x < |seen| && seen[x] && !seen0[x] ==> x in S && Covered(q, seen, firsts, nul, x, stop)
  }

  /** The walk moves from `mid` to `stop`, visiting more on the way. */
  lemma Advance(q: Program, S: set<int>, seen0: seq<bool>, seen: seq<bool>, firsts: seq<bool>, nul: nat, mid: int,
                seen': seq<bool>, firsts': seq<bool>, nul': nat, stop: int)
    requires |firsts| == 256 && AllCovered(q, S, seen0, seen, firsts, nul, mid)
    requires More(seen, seen') && More(firsts, firsts') && NullMore(nul, nul')
    requires Covered(q, seen', firsts', nul', mid, stop)
    requires forall x :: 0 <= x < |seen'| && seen'[x] && !seen[x] ==>
      x in S && Covered(q, seen', firsts', nul', x, stop)
    ensures AllCovered(q, S, seen0, seen', firsts', nul', stop)
  {
    hide Covered;
    forall x | 0 <= x < |seen'| && seen'[x] && !seen0[x]
      ensures x in S && Covered(q, seen', firsts', nul', x, stop)
    {
      if seen[x] {
        CoveredMore(q, seen, firsts, nul, seen', firsts', nul', x, mid);
        CoveredTrans(q, seen', firsts', nul', x, mid, stop);
      }
    }
  }

  /** When everything visited is covered, all that can come first has been recorded. */
  lemma {:induction false} OpensRecorded(q: Program, S: set<int>, seen0: seq<bool>, seen: seq<bool>,
          firsts: seq<bool>, nul: nat, pc: int, g: Goal, n: nat)
    requires |firsts| == 256 && AllCovered(q, S, seen0, seen, firsts, nul, -1)
    requires forall x :: 0 <= x < |seen0| ==> !seen0[x]
    requires Covered(q, seen, firsts, nul, pc, -1) && Opens(q, pc, g, n)
    ensures Recorded(firsts, nul, g)
    decreases n
  {
    var i := q[pc];
    if i.Fork? {
      if Opens(q, i.next, g, n - 1) { OpensRecorded(q, S, seen0, seen, firsts, nul, i.next, g, n - 1); }
      else { OpensRecorded(q, S, seen0, seen, firsts, nul, i.alt, g, n - 1); }
    } else if i.Mem? || IsWalkJump(i) || (i.Test? && !i.a.Eol?) {
      OpensRecorded(q, S, seen0, seen, firsts, nul, i.next, g, n - 1);
    }
  }

  // ----- the methods -----

  /** The loops over all characters that mark a class (Csyntaxspec, Cnotsyntaxspec, Canychar). */
  method Mark(fastmap: array<bool>, cl: CharClass)
    requires fastmap.Length == 256
    modifies fastmap
    ensures forall c: byte :: fastmap[c] <==> old(fastmap[c]) || Accepts(cl, c)
  {
    for a := 0 to 256
      invariant forall c: byte :: fastmap[c] <==> old(fastmap[c]) || (c < a && Accepts(cl, c))
    {
      if Accepts(cl, a) {
        fastmap[a] := true;
      }
    }
  }

  /** The nested loops over the bytes and bits of a set (Cset). */
  method MarkSet(fastmap: array<bool>, bits: seq<byte>)
    requires fastmap.Length == 256 && |bits| == 32
    modifies fastmap
    ensures forall c: byte :: fastmap[c] <==> old(fastmap[c]) || InBits(bits, c)
  {
    for a := 0 to 32
      invariant forall c: byte :: fastmap[c] <==> old(fastmap[c]) || (c < 8 * a && InBits(bits, c))
    {
      if bits[a] != 0 {
        for b := 0 to 8
          invariant forall c: byte :: fastmap[c] <==> old(fastmap[c]) || (c < 8 * a + b && InBits(bits, c))
        {
          var c: byte := 8 * a + b;
          assert c / 8 == a && c % 8 == b;
          if Bit(bits[a], b) {
            fastmap[c] := true;
          }
        }
      } else {
        forall c: byte | 8 * a <= c < 8 * (a + 1) ensures !InBits(bits, c) { ZeroBits(c % 8); }
      }
    }
  }

  lemma {:induction false} ZeroBits(k: nat)
    ensures !Bit(0, k)
  {
    if k > 0 { ZeroBits(k - 1); }
  }

  ghost function Unseen(seen: seq<bool>): set<int> {
    set x | 0 <= x < |seen| && !seen[x]
  }

  lemma SeeOne(seen: seq<bool>, x: int)
    requires 0 <= x < |seen| && !seen[x]
    ensures |Unseen(seen[x := true])| < |Unseen(seen)|
  {
    assert Unseen(seen[x := true]) == Unseen(seen) - {x};
  }

  lemma SeeMore(seen: seq<bool>, seen': seq<bool>)
    requires More(seen, seen')
    ensures |Unseen(seen')| <= |Unseen(seen)|
  {
    var a, b := Unseen(seen'), Unseen(seen);
    assert b == a + (b - a);
  }

  // ----- where the walk has come from -----

  /** What can come first from pc can come first from pos. */
  ghost predicate FromHere(q: Program, pos: int, pc: int) {
    forall g :: CanOpen(q, pc, g) ==> CanOpen(q, pos, g)
  }

  lemma FromNext(q: Program, pos: int, pc: int, x: int)
    requires FromHere(q, pos, pc) && 0 <= pc < |q| && Leads(q[pc], x)
    requires q[pc].Fork? || ((IsWalkJump(q[pc]) || q[pc].Mem? || (q[pc].Test? && !q[pc].a.Eol?)) && x == q[pc].next)
    ensures FromHere(q, pos, x)
  {
    forall g | CanOpen(q, x, g) ensures CanOpen(q, pos, g) {
      var n: nat :| Opens(q, x, g, n);
      assert Opens(q, pc, g, n + 1);
      assert CanOpen(q, pc, g);
    }
  }

  /** Everything recorded since firsts0 and nul0 can come first from pos. */
  ghost predicate AllFrom(q: Program, pos: int, firsts0: seq<bool>, nul0: nat, firsts: seq<bool>, nul: nat) {
    && |firsts0| == |firsts| == 256 && More(firsts0, firsts) && NullMore(nul0, nul)
    && (forall c: byte :: firsts[c] && !firsts0[c] ==> CanOpen(q, pos, Char(c)))
    && (nul == 1 && nul0 != 1 ==> CanOpen(q, pos, ToEnd))
    && (nul == 2 && nul0 == 0 ==> CanOpen(q, pos, AtEol))
  }

  /** A recursive walk from a position that pos leads to. */
  lemma AllFromTrans(q: Program, pos: int, pc: int, firsts0: seq<bool>, nul0: nat, firsts1: seq<bool>, nul1: nat,
          firsts: seq<bool>, nul: nat)
    requires FromHere(q, pos, pc) && AllFrom(q, pos, firsts0, nul0, firsts1, nul1)
      && AllFrom(q, pc, firsts1, nul1, firsts, nul)
    ensures AllFrom(q, pos, firsts0, nul0, firsts, nul)
  {
    hide CanOpen;
  }

  /** The instruction at pc can come first itself. */
  lemma OpensAtOnce(q: Program, pos: int, pc: int, g: Goal)
    requires FromHere(q, pos, pc) && Opens(q, pc, g, 0)
    ensures CanOpen(q, pos, g)
  {
    assert CanOpen(q, pc, g);
  }

  // ----- the steps of the walk -----

  lemma WalkAt(code: seq<byte>, q: Program, S: set<int>, pc: int)
    requires q == Decode(code) && Walkable(q, S) && pc in S
    ensures 0 <= pc < |code| == |q| && WalkableAt(q, S, pc)
    ensures code[pc] == C_END ==> q[pc].End?
    ensures code[pc] == C_EOL ==> q[pc] == Test(Eol, pc + 1)
    ensures IsTestOp(code[pc]) && code[pc] != C_EOL ==> q[pc].Test? && !q[pc].a.Eol? && q[pc].next == pc + 1
    ensures code[pc] == C_START_MEMORY || code[pc] == C_END_MEMORY ==> q[pc].Mem? && q[pc].next == pc + 2
    ensures IsJumpOp(code[pc]) ==> pc + 2 < |code|
    ensures IsJumpOp(code[pc]) && code[pc] != C_FAILURE_JUMP ==> IsWalkJump(q[pc]) && q[pc].next == TargetAt(code, pc)
    ensures code[pc] == C_FAILURE_JUMP ==> q[pc] == Fork(pc + 3, TargetAt(code, pc))
    ensures (code[pc] == C_END || IsTestOp(code[pc]) || IsJumpOp(code[pc]) || code[pc] == C_START_MEMORY
      || code[pc] == C_END_MEMORY)
            || (At(code, pc).Eat? && q[pc] == At(code, pc))
  {
    assert WalkableAt(q, S, pc);
  }

  lemma WalkStart(q: Program, pos: int, firsts: seq<bool>, nul: nat)
    requires |firsts| == 256 && nul <= 2
    ensures FromHere(q, pos, pos) && AllFrom(q, pos, firsts, nul, firsts, nul)
  {
    hide CanOpen;
  }

  lemma CoveredHere(q: Program, seen: seq<bool>, firsts: seq<bool>, nul: nat, pc: int)
    requires |firsts| == 256
    ensures Covered(q, seen, firsts, nul, pc, pc)
  {
  }

  lemma RecordEnd(q: Program, S: set<int>, pos: int, pc: int, seen0: seq<bool>, seen: seq<bool>, firsts0: seq<bool>,
          nul0: nat, firsts: seq<bool>, nul: nat)
    requires AllFrom(q, pos, firsts0, nul0, firsts, nul) && AllCovered(q, S, seen0, seen, firsts, nul, pc)
    requires FromHere(q, pos, pc) && 0 <= pc < |q| && q[pc].End?
    ensures AllCovered(q, S, seen0, seen, firsts, 1, -1) && AllFrom(q, pos, firsts0, nul0, firsts, 1)
  {
    hide CanOpen, FromHere;
    OpensAtOnce(q, pos, pc, ToEnd);
    Advance(q, S, seen0, seen, firsts, nul, pc, seen, firsts, 1, -1);
  }

  lemma RecordEol(q: Program, S: set<int>, pos: int, pc: int, seen0: seq<bool>, seen: seq<bool>, firsts0: seq<bool>,
          nul0: nat, firsts: seq<bool>, nul: nat,
                  firsts': seq<bool>, nul': nat)
    requires AllFrom(q, pos, firsts0, nul0, firsts, nul) && AllCovered(q, S, seen0, seen, firsts, nul, pc)
    requires FromHere(q, pos, pc) && 0 <= pc < |q| && q[pc] == Test(Eol, pc + 1)
    requires firsts' == firsts[NEWLINE := true] && nul' == if nul == 0 then 2 else nul
    ensures AllCovered(q, S, seen0, seen, firsts', nul', -1) && AllFrom(q, pos, firsts0, nul0, firsts', nul')
  {
    hide CanOpen, FromHere;
    OpensAtOnce(q, pos, pc, AtEol);
    OpensAtOnce(q, pos, pc, Char(NEWLINE));
    Advance(q, S, seen0, seen, firsts, nul, pc, seen, firsts', nul', -1);
  }

  lemma RecordClass(q: Program, S: set<int>, pos: int, pc: int, seen0: seq<bool>, seen: seq<bool>, firsts0: seq<bool>,
          nul0: nat, firsts: seq<bool>, nul: nat,
                    firsts': seq<bool>)
    requires AllFrom(q, pos, firsts0, nul0, firsts, nul) && AllCovered(q, S, seen0, seen, firsts, nul, pc)
    requires FromHere(q, pos, pc) && 0 <= pc < |q| && q[pc].Eat? && |firsts'| == 256
    requires forall c: byte :: firsts'[c] <==> firsts[c] || Accepts(q[pc].cl, c)
    ensures AllCovered(q, S, seen0, seen, firsts', nul, -1) && AllFrom(q, pos, firsts0, nul0, firsts', nul)
  {
    hide CanOpen, FromHere, Accepts;
    forall c: byte | Accepts(q[pc].cl, c) ensures CanOpen(q, pos, Char(c)) {
      OpensAtOnce(q, pos, pc, Char(c));
    }
    Advance(q, S, seen0, seen, firsts, nul, pc, seen, firsts', nul, -1);
  }

  lemma WalkOn(q: Program, S: set<int>, pos: int, pc: int, x: int, seen0: seq<bool>, seen: seq<bool>,
          firsts: seq<bool>, nul: nat)
    requires |firsts| == 256 && nul <= 2 && AllCovered(q, S, seen0, seen, firsts, nul, pc)
    requires FromHere(q, pos, pc) && 0 <= pc < |q| && WalkableAt(q, S, pc)
    requires (q[pc].Mem? || (q[pc].Test? && !q[pc].a.Eol?)) && x == q[pc].next
    ensures AllCovered(q, S, seen0, seen, firsts, nul, x) && FromHere(q, pos, x)
  {
    hide CanOpen, FromHere;
    FromNext(q, pos, pc, x);
    CoveredHere(q, seen, firsts, nul, x);
    Advance(q, S, seen0, seen, firsts, nul, pc, seen, firsts, nul, x);
  }

  lemma WalkStop(q: Program, S: set<int>, pc: int, seen0: seq<bool>, seen: seq<bool>, firsts: seq<bool>, nul: nat)
    requires |firsts| == 256 && nul <= 2 && AllCovered(q, S, seen0, seen, firsts, nul, pc)
    requires 0 <= pc < |q| && IsWalkJump(q[pc]) && 0 <= q[pc].next < |seen| && seen[q[pc].next]
    ensures AllCovered(q, S, seen0, seen, firsts, nul, -1)
  {
    Advance(q, S, seen0, seen, firsts, nul, pc, seen, firsts, nul, -1);
  }

  lemma WalkJump(q: Program, S: set<int>, pos: int, pc: int, x: int, seen0: seq<bool>, seen: seq<bool>,
          firsts: seq<bool>, nul: nat)
    requires |firsts| == 256 && nul <= 2 && AllCovered(q, S, seen0, seen, firsts, nul, pc)
    requires FromHere(q, pos, pc) && 0 <= pc < |q| && WalkableAt(q, S, pc) && IsWalkJump(q[pc]) && x == q[pc].next
    requires 0 <= x < |seen| && !seen[x]
    ensures AllCovered(q, S, seen0, seen[x := true], firsts, nul, x) && FromHere(q, pos, x)
    ensures |Unseen(seen[x := true])| < |Unseen(seen)|
  {
    hide CanOpen, FromHere;
    SeeOne(seen, x);
    FromNext(q, pos, pc, x);
    var seen' := seen[x := true];
    CoveredHere(q, seen', firsts, nul, x);
    Advance(q, S, seen0, seen, firsts, nul, pc, seen', firsts, nul, x);
  }

  /** After the recursive walk from the alternative, the walk goes on behind the failure jump. */
  lemma WalkFork(q: Program, S: set<int>, pos: int, pc: int, seen0: seq<bool>, seen: seq<bool>, firsts0: seq<bool>,
          nul0: nat, firsts: seq<bool>, nul: nat,
                 seen': seq<bool>, firsts': seq<bool>, nul': nat)
    requires AllFrom(q, pos, firsts0, nul0, firsts, nul) && AllCovered(q, S, seen0, seen, firsts, nul, pc)
    requires FromHere(q, pos, pc) && 0 <= pc < |q| && WalkableAt(q, S, pc) && q[pc].Fork?
    requires More(seen, seen') && 0 <= q[pc].alt < |seen'| && seen'[q[pc].alt]
    requires AllFrom(q, q[pc].alt, firsts, nul, firsts', nul') && AllCovered(q, S, seen, seen', firsts', nul', -1)
    ensures AllCovered(q, S, seen0, seen', firsts', nul', q[pc].next) && AllFrom(q, pos, firsts0, nul0, firsts', nul')
    ensures FromHere(q, pos, q[pc].next) && |Unseen(seen')| <= |Unseen(seen)|
  {
    hide CanOpen, FromHere;
    SeeMore(seen, seen');
    FromNext(q, pos, pc, q[pc].next);
    FromNext(q, pos, pc, q[pc].alt);
    AllFromTrans(q, pos, q[pc].alt, firsts0, nul0, firsts, nul, firsts', nul');
    CoveredHere(q, seen', firsts', nul', q[pc].next);
    forall x | 0 <= x < |seen'| && seen'[x] && !seen[x]
      ensures x in S && Covered(q, seen', firsts', nul', x, q[pc].next) {
      CoveredTrans(q, seen', firsts', nul', x, -1, q[pc].next);
    }
    Advance(q, S, seen0, seen, firsts, nul, pc, seen', firsts', nul', q[pc].next);
  }

  /** The cases of the walk that record a character class and return. */
  method RecordEater(code: seq<byte>, pc: nat, fastmap: array<bool>)
    requires pc < |code| && At(code, pc).Eat? && fastmap.Length == 256
    modifies fastmap
    ensures forall c: byte :: fastmap[c] <==> old(fastmap[c]) || Accepts(At(code, pc).cl, c)
  {
    var op := code[pc];
    if op == C_SET {
      MarkSet(fastmap, code[pc + 1..pc + 33]);
    } else if op == C_EXACT {
      fastmap[code[pc + 1]] := true;
    } else if op == C_ANYCHAR {
      Mark(fastmap, AnyChar);
    } else if op == C_SYNTAXSPEC {
      Mark(fastmap, Syntax(code[pc + 1]));
    } else {
      Mark(fastmap, NotSyntax(code[pc + 1]));
    }
  }

  /** re_compile_fastmap_aux: walks the code from pos, marking in fastmap every character that can
      be consumed first and in the result whether the end, or a `$`, can be reached before that. */
  method FastmapAux(code: seq<byte>, pos: nat, visited: array<bool>, fastmap: array<bool>, canBeNull: nat,
          ghost S: set<int>)
      returns (nul: nat)
    requires Walkable(Decode(code), S) && pos in S
    requires visited.Length == |code| && fastmap.Length == 256 && visited != fastmap && canBeNull <= 2
    modifies visited, fastmap
    ensures More(old(visited[..]), visited[..])
    ensures pos < visited.Length && visited[pos] && nul <= 2
    ensures AllCovered(Decode(code), S, old(visited[..]), visited[..], fastmap[..], nul, -1)
    ensures AllFrom(Decode(code), pos, old(fastmap[..]), canBeNull, fastmap[..], nul)
    decreases |Unseen(visited[..])|
  {
    hide CanOpen, Covered, Walkable, AllFrom, FromHere, Unseen, Decode, At;
    ghost var q, seen0, firsts0 := Decode(code), visited[..], fastmap[..];
    WalkStart(q, pos, firsts0, canBeNull);
    nul := canBeNull;
    WalkAt(code, q, S, pos);
    if visited[pos] {
      return;
    }
    SeeOne(seen0, pos);
    visited[pos] := true;
    assert visited[..] == seen0[pos := true];
    var pc := pos;
    CoveredHere(q, visited[..], fastmap[..], nul, pc);
    while true
      invariant pc in S && 0 <= pc < |code| && nul <= 2
      invariant More(seen0, visited[..]) && visited[pos]
      invariant AllCovered(q, S, seen0, visited[..], fastmap[..], nul, pc)
      invariant AllFrom(q, pos, firsts0, canBeNull, fastmap[..], nul)
      invariant FromHere(q, pos, pc)
      invariant |Unseen(visited[..])| < |Unseen(seen0)|
      decreases |Unseen(visited[..])|, |code| - pc
    {
      WalkAt(code, q, S, pc);
      ghost var seen, firsts, n := visited[..], fastmap[..], nul;
      var op := code[pc];
      if op == C_END {
        nul := 1;
        RecordEnd(q, S, pos, pc, seen0, seen, firsts0, canBeNull, firsts, n);
        return;
      } else if op == C_EOL {
        fastmap[NEWLINE] := true;
        if nul == 0 {
          nul := 2;
        }
        RecordEol(q, S, pos, pc, seen0, seen, firsts0, canBeNull, firsts, n, fastmap[..], nul);
        return;
      } else if IsTestOp(op) || op == C_START_MEMORY || op == C_END_MEMORY {
        var next := if IsTestOp(op) then pc + 1 else pc + 2;
        WalkAt(code, q, S, next);
        WalkOn(q, S, pos, pc, next, seen0, seen, firsts, n);
        pc := next;
      } else if op == C_JUMP || op == C_DUMMY_FAILURE_JUMP || op == C_UPDATE_FAILURE_JUMP || op == C_STAR_JUMP {
        var target := TargetAt(code, pc);
        WalkAt(code, q, S, target);
        if visited[target] {
          WalkStop(q, S, pc, seen0, seen, firsts, n);
          return;
        }
        visited[target] := true;
        assert visited[..] == seen[target := true];
        WalkJump(q, S, pos, pc, target, seen0, seen, firsts, n);
        pc := target;
      } else if op == C_FAILURE_JUMP {
        var target := TargetAt(code, pc);
        WalkAt(code, q, S, target);
        WalkAt(code, q, S, pc + 3);
        assert pc + 3 in S;
        nul := FastmapAux(code, target, visited, fastmap, nul, S);
        WalkFork(q, S, pos, pc, seen0, seen, firsts0, canBeNull, firsts, n, visited[..], fastmap[..], nul);
        pc := pc + 3;
      } else {
        RecordEater(code, pc, fastmap);
        RecordClass(q, S, pos, pc, seen0, seen, firsts0, canBeNull, firsts, n, fastmap[..]);
        return;
      }
    }
  }

  /** re_do_compile_fastmap: the map of what can come first from pos, exactly. */
  method DoCompileFastmap(code: seq<byte>, pos: nat, fastmap: array<bool>, ghost S: set<int>) returns (nul: nat)
    requires Walkable(Decode(code), S) && pos in S && fastmap.Length == 256
    modifies fastmap
    ensures forall c: byte :: fastmap[c] <==> CanOpen(Decode(code), pos, Char(c))
    ensures nul <= 2 && (nul == 1 <==> CanOpen(Decode(code), pos, ToEnd))
    ensures nul != 0 <==> CanOpen(Decode(code), pos, ToEnd) || CanOpen(Decode(code), pos, AtEol)
  {
    hide CanOpen, Covered, Walkable, Decode;
    for a := 0 to 256
      invariant forall c: byte :: c < a ==> !fastmap[c]
    {
      fastmap[a] := false;
    }
    var visited := new bool[|code|](_ => false);
    ghost var seen0 := visited[..];
    nul := FastmapAux(code, pos, visited, fastmap, 0, S);
    WalkComplete(Decode(code), S, pos, seen0, visited[..], fastmap[..], nul);
  }

  lemma WalkComplete(q: Program, S: set<int>, pos: int, seen0: seq<bool>, seen: seq<bool>, firsts: seq<bool>, nul: nat)
    requires |firsts| == 256 && AllCovered(q, S, seen0, seen, firsts, nul, -1) && 0 <= pos < |seen| && seen[pos]
    requires forall x :: 0 <= x < |seen0| ==> !seen0[x]
    ensures forall g :: CanOpen(q, pos, g) ==> Recorded(firsts, nul, g)
  {
    forall g | CanOpen(q, pos, g) ensures Recorded(firsts, nul, g) {
      var n: nat :| Opens(q, pos, g, n);
      OpensRecorded(q, S, seen0, seen, firsts, nul, pos, g, n);
    }
  }
}
