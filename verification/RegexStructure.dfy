/** The shape of compiled code: where instructions start, where jumps may land, and how a
    simple loop can be entered. */
module RegexStructure {
  import opened RegexSyntax
  import opened RegexProgram

  /** The offsets at which the instructions of re start, when its code lies at o. */
  ghost function Starts(re: Re, o: nat): set<int> {
    match re
    case Eps => {}
    case Seq(l, r) => Starts(l, o) + Starts(r, o + Len(l))
    case Alt(l, r) => {o, o + 3 + Len(l)} + Starts(l, o + 3) + Starts(r, o + 6 + Len(l))
    case Opt(b) => {o} + Starts(b, o + 3)
    case Star(b) => {o, o + 3 + Len(b)} + Starts(b, o + 3)
    case Plus(b) => {o, o + 3, o + 6 + Len(b)} + Starts(b, o + 6)
    case Group(g, b) => if g == 0 then Starts(b, o) else {o, o + 2 + Len(b)} + Starts(b, o + 2)
    case _ => {o}
  }

  ghost function AllStarts(re: Re): set<int> {
    Starts(re, 0) + {Len(re)}
  }

  /** q is an offset the matcher can be sent to by i. */
  predicate Leads(i: Instr, q: int) {
    && !i.End? && !i.Bad?
    && (q == i.next || ((i.Fork? || i.Dummy?) && q == i.alt))
  }

  predicate Plain(i: Instr) {
    i.Eat? || i.Test? || i.Mem?
  }

  /** Bytes taken by the instruction at pc. */
  function Size(p: Program, pc: int): (n: int)
    requires 0 <= pc < |p|
    ensures n >= 1
  {
    match p[pc]
    case Eat(cl, _) => AtomLen(cl)
    case Test(_, _) => 1
    case Mem(_, _, _) => 2
    case Back(_, _) => 2
    case End => 1
    case Bad => 1
    case _ => 3
  }

  /** What the compiler guarantees of the instruction at pc: it leads to instruction starts in S,
      forward only, except that a star jump leads back to the failure jump that opens its loop. */
  ghost predicate LocalOk(p: Program, S: set<int>, pc: int) {
    && 0 <= pc < |p|
    && match p[pc]
       case End => forall y :: y in S ==> y <= pc
       case Jump(x) => x in S && pc < x
       case StarJump(x) => x in S && 0 <= x && x + 3 <= pc && p[x] == Fork(x + 3, pc + 3) && pc + 3 in S && x + 3 in S
       case Fork(x, y) => x == pc + 3 && x in S && y in S && pc < y
       case Dummy(x, y) => x == pc + 6 && x in S && y in S && pc < y && pc + 3 in S && pc + 3 < |p|
         && p[pc + 3] == Fork(x, y)
       case Back(_, _) => false
       case UpdateJump(_) => false
       case Bad => false
       case _ => p[pc].next in S && p[pc].next == pc + Size(p, pc)
  }

  ghost predicate WellFormed(p: Program, S: set<int>) {
    forall pc :: pc in S ==> LocalOk(p, S, pc)
  }

  // ----- every jump lands on an instruction start inside its node -----

  /** The instruction at pc lies in [a, z), is well formed, and leads nowhere outside [a, z]. */
  ghost predicate Inside(p: Program, S: set<int>, a: int, z: int, pc: int) {
    && a <= pc < z
    && LocalOk(p, S, pc)
    && forall q :: Leads(p[pc], q) ==> a <= q <= z
  }

  lemma Widen(p: Program, S: set<int>, a: int, z: int, pcs: set<int>, a': int, z': int)
    requires a' <= a && z <= z'
    requires forall pc :: pc in pcs ==> Inside(p, S, a, z, pc)
    ensures forall pc :: pc in pcs ==> Inside(p, S, a', z', pc)
  {
    hide LocalOk, Leads;
  }

  lemma {:induction false} NodeInside(p: Program, o: nat, re: Re, S: set<int>)
    requires Fits(p, o, re) && NoBackref(re)
    requires Starts(re, o) <= S && o + Len(re) in S
    ensures o in S
    ensures forall pc :: pc in Starts(re, o) ==> Inside(p, S, o, o + Len(re), pc)
    decreases re, 1
  {
    hide *;
    if re.Eps? || re.Atom? || re.Assert? || re.Backref? {
      LeafInside(p, o, re, S);
    } else {
      match re
      case Seq(l, r) => SeqInside(p, o, l, r, S);
      case Alt(l, r) => AltInside(p, o, l, r, S);
      case Opt(b) => OptInside(p, o, b, S);
      case Star(b) => StarInside(p, o, b, S);
      case Plus(b) => PlusInside(p, o, b, S);
      case Group(g, b) => GroupInside(p, o, g, b, S);
    }
  }

  lemma LeafInside(p: Program, o: nat, re: Re, S: set<int>)
    requires re.Eps? || re.Atom? || re.Assert? || re.Backref?
    requires Fits(p, o, re) && NoBackref(re)
    requires Starts(re, o) <= S && o + Len(re) in S
    ensures o in S
    ensures forall pc :: pc in Starts(re, o) ==> Inside(p, S, o, o + Len(re), pc)
  {
  }

  lemma {:induction false} SeqInside(p: Program, o: nat, l: Re, r: Re, S: set<int>)
    requires Fits(p, o, Seq(l, r)) && NoBackref(Seq(l, r))
    requires Starts(Seq(l, r), o) <= S && o + Len(Seq(l, r)) in S
    ensures o in S
    ensures forall pc :: pc in Starts(Seq(l, r), o) ==> Inside(p, S, o, o + Len(Seq(l, r)), pc)
    decreases Seq(l, r), 0
  {
    assert NoBackref(l) && NoBackref(r) by { hide Fits, Len; }
    assert Starts(Seq(l, r), o) == Starts(l, o) + Starts(r, o + Len(l)) by { hide Fits, Len, NoBackref; }
    hide Fits, Len, NoBackref, Starts, LoopFits;
    SeqLayout(p, o, l, r);
    NodeInside(p, o + Len(l), r, S);
    NodeInside(p, o, l, S);
    Widen(p, S, o + Len(l), o + Len(l) + Len(r), Starts(r, o + Len(l)), o, o + Len(Seq(l, r)));
    Widen(p, S, o, o + Len(l), Starts(l, o), o, o + Len(Seq(l, r)));
  }

  lemma {:induction false} AltInside(p: Program, o: nat, l: Re, r: Re, S: set<int>)
    requires Fits(p, o, Alt(l, r)) && NoBackref(Alt(l, r))
    requires Starts(Alt(l, r), o) <= S && o + Len(Alt(l, r)) in S
    ensures o in S
    ensures forall pc :: pc in Starts(Alt(l, r), o) ==> Inside(p, S, o, o + Len(Alt(l, r)), pc)
    decreases Alt(l, r), 0
  {
    assert NoBackref(l) && NoBackref(r) by { hide Fits, Len; }
    assert Starts(Alt(l, r), o) == {o, o + 3 + Len(l)} + Starts(l, o + 3) + Starts(r, o + 6 + Len(l))
      by { hide Fits, Len, NoBackref; }
    hide Fits, Len, NoBackref, Starts, LoopFits;
    AltLayout(p, o, l, r);
    var y, z := o + 6 + Len(l), o + Len(Alt(l, r));
    NodeInside(p, y, r, S);
    NodeInside(p, o + 3, l, S);
    Widen(p, S, y, z, Starts(r, y), o, z);
    Widen(p, S, o + 3, o + 3 + Len(l), Starts(l, o + 3), o, z);
  }

  lemma {:induction false} OptInside(p: Program, o: nat, b: Re, S: set<int>)
    requires Fits(p, o, Opt(b)) && NoBackref(Opt(b))
    requires Starts(Opt(b), o) <= S && o + Len(Opt(b)) in S
    ensures o in S
    ensures forall pc :: pc in Starts(Opt(b), o) ==> Inside(p, S, o, o + Len(Opt(b)), pc)
    decreases Opt(b), 0
  {
    assert NoBackref(b) by { hide Fits, Len; }
    assert Starts(Opt(b), o) == {o} + Starts(b, o + 3) by { hide Fits, Len, NoBackref; }
    hide Fits, Len, NoBackref, Starts, LoopFits;
    OptLayout(p, o, b);
    var z := o + Len(Opt(b));
    NodeInside(p, o + 3, b, S);
    Widen(p, S, o + 3, z, Starts(b, o + 3), o, z);
  }

  lemma {:induction false} StarInside(p: Program, o: nat, b: Re, S: set<int>)
    requires Fits(p, o, Star(b)) && NoBackref(Star(b))
    requires Starts(Star(b), o) <= S && o + Len(Star(b)) in S
    ensures o in S
    ensures forall pc :: pc in Starts(Star(b), o) ==> Inside(p, S, o, o + Len(Star(b)), pc)
    decreases Star(b), 0
  {
    assert NoBackref(b) by { hide Fits, Len; }
    assert Starts(Star(b), o) == {o, o + 3 + Len(b)} + Starts(b, o + 3) by { hide Fits, Len, NoBackref; }
    hide Fits, Len, NoBackref, Starts, LoopFits;
    StarLayout(p, o, b); LoopLayout(p, o, b);
    var z := o + Len(Star(b));
    NodeInside(p, o + 3, b, S);
    Widen(p, S, o + 3, z - 3, Starts(b, o + 3), o, z);
  }

  lemma {:induction false} PlusInside(p: Program, o: nat, b: Re, S: set<int>)
    requires Fits(p, o, Plus(b)) && NoBackref(Plus(b))
    requires Starts(Plus(b), o) <= S && o + Len(Plus(b)) in S
    ensures o in S
    ensures forall pc :: pc in Starts(Plus(b), o) ==> Inside(p, S, o, o + Len(Plus(b)), pc)
    decreases Plus(b), 0
  {
    assert NoBackref(b) by { hide Fits, Len; }
    assert Starts(Plus(b), o) == {o, o + 3, o + 6 + Len(b)} + Starts(b, o + 6) by { hide Fits, Len, NoBackref; }
    hide Fits, Len, NoBackref, Starts, LoopFits;
    PlusLayout(p, o, b);
    var z := o + Len(Plus(b));
    NodeInside(p, o + 6, b, S);
    Widen(p, S, o + 6, z - 3, Starts(b, o + 6), o, z);
  }

  lemma {:induction false} GroupInside(p: Program, o: nat, g: byte, b: Re, S: set<int>)
    requires Fits(p, o, Group(g, b)) && NoBackref(Group(g, b))
    requires Starts(Group(g, b), o) <= S && o + Len(Group(g, b)) in S
    ensures o in S
    ensures forall pc :: pc in Starts(Group(g, b), o) ==> Inside(p, S, o, o + Len(Group(g, b)), pc)
    decreases Group(g, b), 0
  {
    assert NoBackref(b) by { hide Fits, Len; }
    assert Starts(Group(g, b), o) == (if g == 0 then Starts(b, o) else {o, o + 2 + Len(b)} + Starts(b, o + 2))
      by { hide Fits, Len, NoBackref; }
    hide Fits, Len, NoBackref, Starts, LoopFits;
    GroupLayout(p, o, g, b);
    if g == 0 {
      NodeInside(p, o, b, S);
    } else {
      var z := o + Len(Group(g, b));
      NodeInside(p, o + 2, b, S);
      Widen(p, S, o + 2, z - 2, Starts(b, o + 2), o, z);
    }
  }

  // ----- a simple loop is entered only through its own failure jump -----

  /** Between b and s there are only instructions that neither jump nor push. */
  ghost predicate Straight(p: Program, S: set<int>, b: int, s: int) {
    forall x :: x in S && b <= x < s ==> 0 <= x < |p| && Plain(p[x])
  }

  /** If the loop closed by the star jump at s is straight, then pc leads into its body only from
      inside the body, from the failure jump that opens it, or from that jump's dummy. */
  ghost predicate Guarded(p: Program, S: set<int>, s: int, pc: int)
    requires 0 <= s < |p| && 0 <= pc < |p| && p[s].StarJump?
  {
    var b := p[s].next + 3;
    Straight(p, S, b, s) ==>
      forall q :: Leads(p[pc], q) && b <= q <= s ==>
        || b <= pc < s
        || pc == p[s].next
        || (p[pc].Dummy? && p[pc].alt == s + 3 && q == b)
  }

  ghost predicate AllGuarded(p: Program, S: set<int>, loops: set<int>, pcs: set<int>) {
    forall s, pc :: s in loops && pc in pcs && 0 <= s < |p| && 0 <= pc < |p| && p[s].StarJump? ==> Guarded(p, S, s, pc)
  }

  /** Code outside [a, z] that does not jump into it does not enter a loop in it. */
  lemma Apart(p: Program, S: set<int>, a: int, z: int, loops: set<int>, pcs: set<int>)
    requires forall s :: s in loops ==> Inside(p, S, a, z, s)
    requires forall pc, q :: pc in pcs && 0 <= pc < |p| && Leads(p[pc], q) ==> q <= a || q >= z
    ensures AllGuarded(p, S, loops, pcs)
  {
    forall s, pc | s in loops && pc in pcs && 0 <= s < |p| && 0 <= pc < |p| && p[s].StarJump?
      ensures Guarded(p, S, s, pc)
    {
      assert Inside(p, S, a, z, s) && Leads(p[s], p[s].next);
    }
  }

  lemma {:induction false} NodeGuarded(p: Program, o: nat, re: Re, S: set<int>)
    requires Fits(p, o, re) && NoBackref(re)
    requires Starts(re, o) <= S && o + Len(re) in S
    ensures AllGuarded(p, S, Starts(re, o), Starts(re, o))
    decreases re, 1
  {
    hide *;
    match re
    case Seq(l, r) => SeqGuarded(p, o, l, r, S);
    case Alt(l, r) => AltGuarded(p, o, l, r, S);
    case Opt(b) => OptGuarded(p, o, b, S);
    case Star(b) => StarGuarded(p, o, b, S);
    case Plus(b) => PlusGuarded(p, o, b, S);
    case Group(g, b) => GroupGuarded(p, o, g, b, S);
    case _ => LeafGuarded(p, o, re, S);
  }

  lemma LeafGuarded(p: Program, o: nat, re: Re, S: set<int>)
    requires re.Eps? || re.Atom? || re.Assert? || re.Backref?
    requires Fits(p, o, re)
    ensures AllGuarded(p, S, Starts(re, o), Starts(re, o))
  {
  }

  lemma {:induction false} SeqGuarded(p: Program, o: nat, l: Re, r: Re, S: set<int>)
    requires Fits(p, o, Seq(l, r)) && NoBackref(Seq(l, r))
    requires Starts(Seq(l, r), o) <= S && o + Len(Seq(l, r)) in S
    ensures AllGuarded(p, S, Starts(Seq(l, r), o), Starts(Seq(l, r), o))
    decreases Seq(l, r), 0
  {
    assert NoBackref(l) && NoBackref(r) by { hide Fits, Len; }
    assert Starts(Seq(l, r), o) == Starts(l, o) + Starts(r, o + Len(l)) by { hide Fits, Len, NoBackref; }
    hide Fits, Len, NoBackref, Starts, LoopFits, Guarded;
    SeqLayout(p, o, l, r);
    var y, z := o + Len(l), o + Len(Seq(l, r));
    NodeInside(p, y, r, S);
    NodeInside(p, o, l, S);
    NodeGuarded(p, y, r, S);
    NodeGuarded(p, o, l, S);
    Apart(p, S, o, y, Starts(l, o), Starts(r, y));
    Apart(p, S, y, z, Starts(r, y), Starts(l, o));
  }

  lemma {:induction false} AltGuarded(p: Program, o: nat, l: Re, r: Re, S: set<int>)
    requires Fits(p, o, Alt(l, r)) && NoBackref(Alt(l, r))
    requires Starts(Alt(l, r), o) <= S && o + Len(Alt(l, r)) in S
    ensures AllGuarded(p, S, Starts(Alt(l, r), o), Starts(Alt(l, r), o))
    decreases Alt(l, r), 0
  {
    hide *;
    NoBackrefParts(Alt(l, r));
    AltStarts(o, l, r);
    AltLayout(p, o, l, r);
    var x, y, z := o + 3, o + 6 + Len(l), o + Len(Alt(l, r));
    var A, B, C := Starts(l, x), Starts(r, y), {o, y - 3};
    NodeInside(p, y, r, S);
    NodeInside(p, x, l, S);
    NodeGuarded(p, y, r, S);
    NodeGuarded(p, x, l, S);
    LeadsWithin(p, S, x, y - 3, A);
    LeadsWithin(p, S, y, z, B);
    AltLeads(p, o, l, r);
    Apart(p, S, x, y - 3, A, B + C);
    Apart(p, S, y, z, B, A + C);
    NoLoops(p, S, C, A + B + C);
    GuardedUnion(p, S, A, B, C, Starts(Alt(l, r), o));
  }

  lemma NoBackrefParts(re: Re)
    requires NoBackref(re)
    ensures re.Seq? || re.Alt? ==> NoBackref(re.left) && NoBackref(re.right)
    ensures re.Opt? || re.Star? || re.Plus? || re.Group? ==> NoBackref(re.body)
  {
  }

  lemma LeadsWithin(p: Program, S: set<int>, a: int, z: int, pcs: set<int>)
    requires forall pc :: pc in pcs ==> Inside(p, S, a, z, pc)
    ensures forall pc, q :: pc in pcs && 0 <= pc < |p| && Leads(p[pc], q) ==> a <= q <= z
  {
    hide LocalOk, Leads;
  }

  lemma AltLeads(p: Program, o: nat, l: Re, r: Re)
    requires o + Len(Alt(l, r)) <= |p| && Len(Alt(l, r)) == 6 + Len(l) + Len(r)
    requires p[o] == Fork(o + 3, o + 6 + Len(l)) && p[o + 3 + Len(l)] == Jump(o + Len(Alt(l, r)))
    ensures forall pc, q :: pc in {o, o + 3 + Len(l)} && Leads(p[pc], q) ==>
      q == o + 3 || q == o + 6 + Len(l) || q == o + Len(Alt(l, r))
    ensures forall pc :: pc in {o, o + 3 + Len(l)} ==> !p[pc].StarJump?
  {
    hide Len;
  }

  lemma NoLoops(p: Program, S: set<int>, loops: set<int>, pcs: set<int>)
    requires forall s :: s in loops && 0 <= s < |p| ==> !p[s].StarJump?
    ensures AllGuarded(p, S, loops, pcs)
  {
    hide Guarded;
  }

  lemma GuardedUnion(p: Program, S: set<int>, A: set<int>, B: set<int>, C: set<int>, all: set<int>)
    requires all == C + A + B && AllGuarded(p, S, A, A) && AllGuarded(p, S, B, B)
    requires AllGuarded(p, S, A, B + C) && AllGuarded(p, S, B, A + C) && AllGuarded(p, S, C, A + B + C)
    ensures AllGuarded(p, S, all, all)
  {
    hide Guarded;
    forall s, pc | s in all && pc in all && 0 <= s < |p| && 0 <= pc < |p| && p[s].StarJump?
      ensures Guarded(p, S, s, pc) {
      if s in C { assert pc in A + B + C; }
      else if s in A { if pc !in A { assert pc in B + C; } }
      else { if pc !in B { assert pc in A + C; } }
    }
  }

  lemma {:induction false} OptGuarded(p: Program, o: nat, b: Re, S: set<int>)
    requires Fits(p, o, Opt(b)) && NoBackref(Opt(b))
    requires Starts(Opt(b), o) <= S && o + Len(Opt(b)) in S
    ensures AllGuarded(p, S, Starts(Opt(b), o), Starts(Opt(b), o))
    decreases Opt(b), 0
  {
    assert NoBackref(b) by { hide Fits, Len; }
    assert Starts(Opt(b), o) == {o} + Starts(b, o + 3) by { hide Fits, Len, NoBackref; }
    hide Fits, Len, NoBackref, Starts, LoopFits, Guarded;
    OptLayout(p, o, b);
    var x, z := o + 3, o + Len(Opt(b));
    NodeInside(p, x, b, S);
    NodeGuarded(p, x, b, S);
    Apart(p, S, x, z, Starts(b, x), {o});
  }

  lemma {:induction false} StarGuarded(p: Program, o: nat, b: Re, S: set<int>)
    requires Fits(p, o, Star(b)) && NoBackref(Star(b))
    requires Starts(Star(b), o) <= S && o + Len(Star(b)) in S
    ensures AllGuarded(p, S, Starts(Star(b), o), Starts(Star(b), o))
    decreases Star(b), 0
  {
    assert NoBackref(b) by { hide Fits, Len; }
    assert Starts(Star(b), o) == {o, o + 3 + Len(b)} + Starts(b, o + 3) by { hide Fits, Len, NoBackref; }
    hide Fits, Len, NoBackref, Starts, LoopFits, Guarded;
    StarLayout(p, o, b);
    LoopGuarded(p, o, b, S);
  }

  lemma {:induction false} LoopGuarded(p: Program, o: nat, b: Re, S: set<int>)
    requires LoopFits(p, o, b) && NoBackref(b)
    requires Starts(b, o + 3) <= S && o + 3 + Len(b) in S
    ensures AllGuarded(p, S, {o, o + 3 + Len(b)} + Starts(b, o + 3), {o, o + 3 + Len(b)} + Starts(b, o + 3))
    decreases b, 2
  {
    hide Fits, Len, NoBackref, Starts, LoopFits;
    LoopLayout(p, o, b);
    var x, s := o + 3, o + 3 + Len(b);
    NodeInside(p, x, b, S);
    NodeGuarded(p, x, b, S);
    Apart(p, S, x, s, Starts(b, x), {o, s});
    forall pc | pc in {o, s} + Starts(b, x)
      ensures Guarded(p, S, s, pc)
    {
    }
  }

  lemma {:induction false} PlusGuarded(p: Program, o: nat, b: Re, S: set<int>)
    requires Fits(p, o, Plus(b)) && NoBackref(Plus(b))
    requires Starts(Plus(b), o) <= S && o + Len(Plus(b)) in S
    ensures AllGuarded(p, S, Starts(Plus(b), o), Starts(Plus(b), o))
    decreases Plus(b), 0
  {
    assert NoBackref(b) by { hide Fits, Len; }
    assert Starts(Plus(b), o) == {o} + ({o + 3, o + 6 + Len(b)} + Starts(b, o + 6)) by { hide Fits, Len, NoBackref; }
    hide Fits, Len, NoBackref, Starts, LoopFits;
    PlusLayout(p, o, b);
    var x, s := o + 6, o + 6 + Len(b);
    NodeInside(p, x, b, S);
    LoopGuarded(p, o + 3, b, S);
    Apart(p, S, x, s, Starts(b, x), {o});
    assert Guarded(p, S, s, o) by { assert p[o] == Dummy(x, s + 3); }
  }

  lemma {:induction false} GroupGuarded(p: Program, o: nat, g: byte, b: Re, S: set<int>)
    requires Fits(p, o, Group(g, b)) && NoBackref(Group(g, b))
    requires Starts(Group(g, b), o) <= S && o + Len(Group(g, b)) in S
    ensures AllGuarded(p, S, Starts(Group(g, b), o), Starts(Group(g, b), o))
    decreases Group(g, b), 0
  {
    assert NoBackref(b) by { hide Fits, Len; }
    assert Starts(Group(g, b), o) == (if g == 0 then Starts(b, o) else {o, o + 2 + Len(b)} + Starts(b, o + 2))
      by { hide Fits, Len, NoBackref; }
    hide Fits, Len, NoBackref, Starts, LoopFits, Guarded;
    GroupLayout(p, o, g, b);
    if g == 0 {
      NodeGuarded(p, o, b, S);
    } else {
      var x, z := o + 2, o + 2 + Len(b);
      NodeInside(p, x, b, S);
      NodeGuarded(p, x, b, S);
      Apart(p, S, x, z, Starts(b, x), {o, z});
    }
  }

  // ----- instruction boundaries: read the code from its first byte, instruction by instruction -----

  /** Reading instruction by instruction from x arrives at y. */
  predicate Boundary(p: Program, x: int, y: int)
    decreases |p| - x
  {
    x == y || (0 <= x < |p| && x < y && Boundary(p, x + Size(p, x), y))
  }

  lemma {:induction false} BoundaryTrans(p: Program, x: int, y: int, z: int)
    requires Boundary(p, x, y) && Boundary(p, y, z) && y <= z
    ensures Boundary(p, x, z)
    decreases |p| - x
  {
    if x != y { BoundaryTrans(p, x + Size(p, x), y, z); }
  }

  /** Instructions do not overlap. */
  lemma {:induction false} NoOverlap(p: Program, x: int, y: int, z: int)
    requires Boundary(p, x, y) && Boundary(p, x, z) && 0 <= y < z && y < |p|
    ensures y + Size(p, y) <= z && Boundary(p, y, z)
    decreases |p| - x
  {
    if x != y { NoOverlap(p, x + Size(p, x), y, z); } else { BoundaryForward(p, x + Size(p, x), z); }
  }

  lemma {:induction false} BoundaryForward(p: Program, x: int, y: int)
    requires Boundary(p, x, y)
    ensures x <= y
    decreases |p| - x
  {
  }

  ghost predicate Scanned(p: Program, o: int, pcs: set<int>) {
    forall pc :: pc in pcs ==> o <= pc && Boundary(p, o, pc)
  }

  lemma ScanFrom(p: Program, o: int, x: int, pcs: set<int>)
    requires Boundary(p, o, x) && o <= x && Scanned(p, x, pcs)
    ensures Scanned(p, o, pcs)
  {
    hide Boundary;
    forall pc | pc in pcs ensures Boundary(p, o, pc) { BoundaryTrans(p, o, x, pc); }
  }

  lemma {:induction false} NodeScan(p: Program, o: nat, re: Re)
    requires Fits(p, o, re)
    ensures Scanned(p, o, Starts(re, o) + {o + Len(re)})
    decreases re
  {
    hide *;
    match re
    case Seq(l, r) => SeqLayout(p, o, l, r); NodeScan(p, o, l); NodeScan(p, o + Len(l), r); SeqScan(p, o, l, r);
    case Alt(l, r) => AltLayout(p, o, l, r); NodeScan(p, o + 3, l); NodeScan(p, o + 6 + Len(l), r); AltScan(p, o, l, r);
    case Opt(b) => OptLayout(p, o, b); NodeScan(p, o + 3, b); OptScan(p, o, b);
    case Star(b) => StarLayout(p, o, b); LoopLayout(p, o, b); NodeScan(p, o + 3, b); StarScan(p, o, b);
    case Plus(b) => PlusLayout(p, o, b); NodeScan(p, o + 6, b); PlusScan(p, o, b);
    case Group(g, b) => GroupLayout(p, o, g, b); NodeScan(p, if g == 0 then o else o + 2, b); GroupScan(p, o, g, b);
    case _ => LeafScan(p, o, re);
  }

  lemma LeafScan(p: Program, o: nat, re: Re)
    requires re.Eps? || re.Atom? || re.Assert? || re.Backref?
    requires Fits(p, o, re)
    ensures Scanned(p, o, Starts(re, o) + {o + Len(re)})
  {
    if !re.Eps? {
      assert Boundary(p, o + Size(p, o), o + Len(re));
    }
  }

  lemma SeqScan(p: Program, o: nat, l: Re, r: Re)
    requires Scanned(p, o, Starts(l, o) + {o + Len(l)})
      && Scanned(p, o + Len(l), Starts(r, o + Len(l)) + {o + Len(l) + Len(r)})
    ensures Scanned(p, o, Starts(Seq(l, r), o) + {o + Len(Seq(l, r))})
  {
    hide *;
    SeqStarts(o, l, r);
    ScanIn(p, o, o + Len(l), Starts(l, o) + {o + Len(l)});
    ScanFrom(p, o, o + Len(l), Starts(r, o + Len(l)) + {o + Len(l) + Len(r)});
    ScanUnion(p, o, Starts(l, o) + {o + Len(l)}, Starts(r, o + Len(l)) + {o + Len(l) + Len(r)},
      Starts(Seq(l, r), o) + {o + Len(Seq(l, r))});
  }

  lemma SeqStarts(o: nat, l: Re, r: Re)
    ensures Starts(Seq(l, r), o) == Starts(l, o) + Starts(r, o + Len(l)) && Len(Seq(l, r)) == Len(l) + Len(r)
  {
  }

  lemma ScanIn(p: Program, o: int, pc: int, pcs: set<int>)
    requires Scanned(p, o, pcs) && pc in pcs
    ensures o <= pc && Boundary(p, o, pc)
  {
    hide Boundary;
  }

  lemma ScanUnion(p: Program, o: int, a: set<int>, b: set<int>, pcs: set<int>)
    requires Scanned(p, o, a) && Scanned(p, o, b) && pcs <= a + b
    ensures Scanned(p, o, pcs)
  {
    hide Boundary;
  }

  lemma StepScan(p: Program, o: nat, n: nat)
    requires o < |p| && n == Size(p, o)
    ensures Boundary(p, o, o + n)
  {
    assert Boundary(p, o + n, o + n);
  }

  lemma AltScan(p: Program, o: nat, l: Re, r: Re)
    requires Fits(p, o, Alt(l, r))
    requires Scanned(p, o + 3, Starts(l, o + 3) + {o + 3 + Len(l)})
    requires Scanned(p, o + 6 + Len(l), Starts(r, o + 6 + Len(l)) + {o + 6 + Len(l) + Len(r)})
    ensures Scanned(p, o, Starts(Alt(l, r), o) + {o + Len(Alt(l, r))})
  {
    hide *;
    AltStarts(o, l, r);
    AltLayout(p, o, l, r);
    AltSizes(p, o, l, r);
    var x, y := o + 3, o + 6 + Len(l);
    StepScan(p, o, 3);
    StepScan(p, y - 3, 3);
    ScanFrom(p, o, x, Starts(l, x) + {y - 3});
    ScanIn(p, o, y - 3, Starts(l, x) + {y - 3});
    BoundaryTrans(p, o, y - 3, y);
    ScanFrom(p, o, y, Starts(r, y) + {y + Len(r)});
    BoundaryRefl(p, o);
    ScanOne(p, o);
    ScanUnion(p, o, {o}, Starts(l, x) + {y - 3}, {o} + (Starts(l, x) + {y - 3}));
    ScanUnion(p, o, {o} + (Starts(l, x) + {y - 3}), Starts(r, y) + {y + Len(r)},
      Starts(Alt(l, r), o) + {o + Len(Alt(l, r))});
  }

  lemma AltSizes(p: Program, o: nat, l: Re, r: Re)
    requires o + Len(Alt(l, r)) <= |p| && Len(Alt(l, r)) == 6 + Len(l) + Len(r)
    requires p[o] == Fork(o + 3, o + 6 + Len(l)) && p[o + 3 + Len(l)] == Jump(o + Len(Alt(l, r)))
    ensures Size(p, o) == 3 && Size(p, o + 3 + Len(l)) == 3 && !p[o].Mem? && !p[o + 3 + Len(l)].Mem?
  {
  }

  lemma ScanOne(p: Program, o: int)
    ensures Scanned(p, o, {o})
  {
  }

  lemma BoundaryRefl(p: Program, x: int)
    ensures Boundary(p, x, x)
  {
  }

  lemma OptScan(p: Program, o: nat, b: Re)
    requires Fits(p, o, Opt(b))
    requires Scanned(p, o + 3, Starts(b, o + 3) + {o + 3 + Len(b)})
    ensures Scanned(p, o, Starts(Opt(b), o) + {o + Len(Opt(b))})
  {
    assert Starts(Opt(b), o) == {o} + Starts(b, o + 3) by { hide Fits, Len; }
    hide Boundary, Fits, Starts, Len, LoopFits;
    OptLayout(p, o, b);
    StepScan(p, o, 3);
    ScanFrom(p, o, o + 3, Starts(b, o + 3) + {o + 3 + Len(b)});
    BoundaryRefl(p, o);
  }

  lemma StarScan(p: Program, o: nat, b: Re)
    requires Fits(p, o, Star(b))
    requires Scanned(p, o + 3, Starts(b, o + 3) + {o + 3 + Len(b)})
    ensures Scanned(p, o, Starts(Star(b), o) + {o + Len(Star(b))})
  {
    assert Starts(Star(b), o) == {o, o + 3 + Len(b)} + Starts(b, o + 3) by { hide Fits, Len; }
    hide Boundary, Fits, Starts, Len, LoopFits;
    StarLayout(p, o, b);
    LoopLayout(p, o, b);
    LoopScan(p, o, b);
  }

  lemma LoopScan(p: Program, o: nat, b: Re)
    requires LoopFits(p, o, b)
    requires Scanned(p, o + 3, Starts(b, o + 3) + {o + 3 + Len(b)})
    ensures Scanned(p, o, {o, o + 3 + Len(b), o + 6 + Len(b)} + Starts(b, o + 3))
  {
    hide Boundary, Fits, Starts, Len, LoopFits;
    LoopLayout(p, o, b);
    var x, s := o + 3, o + 3 + Len(b);
    StepScan(p, o, 3);
    StepScan(p, s, 3);
    ScanFrom(p, o, x, Starts(b, x) + {s});
    BoundaryTrans(p, o, s, s + 3);
    BoundaryRefl(p, o);
  }

  lemma PlusScan(p: Program, o: nat, b: Re)
    requires Fits(p, o, Plus(b))
    requires Scanned(p, o + 6, Starts(b, o + 6) + {o + 6 + Len(b)})
    ensures Scanned(p, o, Starts(Plus(b), o) + {o + Len(Plus(b))})
  {
    assert Starts(Plus(b), o) == {o, o + 3, o + 6 + Len(b)} + Starts(b, o + 6) by { hide Fits, Len; }
    hide Boundary, Fits, Starts, Len, LoopFits;
    PlusLayout(p, o, b);
    LoopScan(p, o + 3, b);
    StepScan(p, o, 3);
    ScanFrom(p, o, o + 3, {o + 3, o + 6 + Len(b), o + 9 + Len(b)} + Starts(b, o + 6));
    BoundaryRefl(p, o);
  }

  lemma GroupScan(p: Program, o: nat, g: byte, b: Re)
    requires Fits(p, o, Group(g, b))
    requires var x := if g == 0 then o else o + 2; Scanned(p, x, Starts(b, x) + {x + Len(b)})
    ensures Scanned(p, o, Starts(Group(g, b), o) + {o + Len(Group(g, b))})
  {
    assert Starts(Group(g, b), o) == (if g == 0 then Starts(b, o) else {o, o + 2 + Len(b)} + Starts(b, o + 2))
      by { hide Fits, Len; }
    hide Boundary, Fits, Starts, Len, LoopFits;
    GroupLayout(p, o, g, b);
    if g != 0 {
      var x, z := o + 2, o + 2 + Len(b);
      StepScan(p, o, 2);
      StepScan(p, z, 2);
      ScanFrom(p, o, x, Starts(b, x) + {z});
      BoundaryTrans(p, o, z, z + 2);
      BoundaryRefl(p, o);
    }
  }

  /** Everything known of a program with instruction starts S. */
  ghost predicate Sound(p: Program, S: set<int>) {
    WellFormed(p, S) && AllGuarded(p, S, S, S) && Scanned(p, 0, S)
  }

  /** Compiled code is well formed: every jump in it lands on an instruction boundary in it, and a
      straight loop is entered only at its head. */
  lemma CompiledSound(p: Program, re: Re)
    requires Compiled(p, re) && NoBackref(re)
    ensures 0 in AllStarts(re) && Sound(p, AllStarts(re))
  {
    hide *;
    CompiledParts(p, re);
    NodeInside(p, 0, re, AllStarts(re));
    NodeGuarded(p, 0, re, AllStarts(re));
    NodeScan(p, 0, re);
    SoundIntro(p, Starts(re, 0), Len(re));
  }

  lemma CompiledParts(p: Program, re: Re)
    requires Compiled(p, re)
    ensures |p| == Len(re) + 1 && Fits(p, 0, re) && p[Len(re)] == End && AllStarts(re) == Starts(re, 0) + {0 + Len(re)}
    ensures Starts(re, 0) <= AllStarts(re) && 0 + Len(re) in AllStarts(re)
  {
    hide Fits, Starts, Len;
  }

  lemma SoundIntro(p: Program, pcs: set<int>, n: nat)
    requires |p| == n + 1 && p[n] == End && forall pc :: pc in pcs ==> Inside(p, pcs + {0 + n}, 0, 0 + n, pc)
    requires AllGuarded(p, pcs + {0 + n}, pcs, pcs) && Scanned(p, 0, pcs + {0 + n})
    ensures Sound(p, pcs + {0 + n})
  {
    hide Scanned, LocalOk, Guarded;
    var S := pcs + {0 + n};
    assert LocalOk(p, S, n) by { EndLocal(p, S, n, pcs); }
    forall s, pc | s in S && pc in S && 0 <= s < |p| && 0 <= pc < |p| && p[s].StarJump? ensures Guarded(p, S, s, pc) {
      if pc == n { EndGuarded(p, S, s, n); }
    }
  }

  lemma EndLocal(p: Program, S: set<int>, n: nat, pcs: set<int>)
    requires n < |p| && p[n] == End && S == pcs + {n} && forall pc :: pc in pcs ==> Inside(p, S, 0, n, pc)
    ensures LocalOk(p, S, n)
  {
  }

  lemma EndGuarded(p: Program, S: set<int>, s: int, n: nat)
    requires 0 <= s < |p| && n < |p| && p[n] == End && p[s].StarJump?
    ensures Guarded(p, S, s, n)
  {
  }

  // ----- the marks of groups nest -----

  /** Reading instruction by instruction from x to y, with the groups `open` open at x: every end mark
      closes the group opened last and has its register, and at y the groups `open'` are open. */
  predicate Nests(p: Program, x: int, open: seq<byte>, y: int, open': seq<byte>)
    decreases |p| - x
  {
    if x == y then open == open'
    else
      && 0 <= x < |p| && x < y
      && if p[x].Mem? && p[x].opens then Nests(p, x + Size(p, x), open + [p[x].reg], y, open')
         else if p[x].Mem? then
           open != [] && open[|open| - 1] == p[x].reg && Nests(p, x + Size(p, x), open[..|open| - 1], y, open')
         else Nests(p, x + Size(p, x), open, y, open')
  }

  lemma {:induction false} NestsTrans(p: Program, x: int, open: seq<byte>, y: int, open': seq<byte>, z: int,
          open'': seq<byte>)
    requires Nests(p, x, open, y, open') && Nests(p, y, open', z, open'') && y <= z
    ensures Nests(p, x, open, z, open'')
    decreases |p| - x
  {
    if x != y {
      var n := x + Size(p, x);
      if p[x].Mem? && p[x].opens {
        NestsTrans(p, n, open + [p[x].reg], y, open', z, open'');
      } else if p[x].Mem? {
        NestsTrans(p, n, open[..|open| - 1], y, open', z, open'');
      } else {
        NestsTrans(p, n, open, y, open', z, open'');
      }
    }
  }

  lemma NestsOne(p: Program, x: int, open: seq<byte>, open': seq<byte>, n: nat)
    requires 0 <= x < |p| && n == Size(p, x)
    requires if p[x].Mem? && p[x].opens then open' == open + [p[x].reg]
             else if p[x].Mem? then open == open' + [p[x].reg]
             else open' == open
    ensures Nests(p, x, open, x + n, open')
  {
    if p[x].Mem? && !p[x].opens { assert open[..|open| - 1] == open'; }
  }

  lemma {:induction false} NodeNests(p: Program, o: nat, re: Re, open: seq<byte>)
    requires Fits(p, o, re)
    ensures Nests(p, o, open, o + Len(re), open)
    decreases re
  {
    hide *;
    match re
    case Seq(l, r) =>
      SeqLayout(p, o, l, r);
      NodeNests(p, o, l, open);
      NodeNests(p, o + Len(l), r, open);
      NestsTrans(p, o, open, o + Len(l), open, o + Len(re), open);
    case Alt(l, r) =>
      AltLayout(p, o, l, r);
      AltSizes(p, o, l, r);
      NodeNests(p, o + 3, l, open);
      NodeNests(p, o + 6 + Len(l), r, open);
      AltNests(p, o, o + 3 + Len(l), o + Len(re), open);
    case Opt(b) =>
      OptLayout(p, o, b);
      JumpSize(p, o);
      NestsOne(p, o, open, open, 3);
      NodeNests(p, o + 3, b, open);
      NestsTrans(p, o, open, o + 3, open, o + Len(re), open);
    case Star(b) =>
      StarLayout(p, o, b);
      LoopLayout(p, o, b);
      NodeNests(p, o + 3, b, open);
      LoopNests(p, o, Len(b), open);
    case Plus(b) =>
      PlusLayout(p, o, b);
      JumpSize(p, o);
      NestsOne(p, o, open, open, 3);
      NodeNests(p, o + 6, b, open);
      LoopNests(p, o + 3, Len(b), open);
      NestsTrans(p, o, open, o + 3, open, o + Len(re), open);
    case Group(g, b) =>
      GroupLayout(p, o, g, b);
      if g == 0 {
        NodeNests(p, o, b, open);
      } else {
        NodeNests(p, o + 2, b, open + [g]);
        GroupNests(p, o, o + 2 + Len(b), g, open);
      }
    case _ => LeafNests(p, o, re, open);
  }

  lemma AltNests(p: Program, o: nat, j: nat, z: nat, open: seq<byte>)
    requires o + 3 <= j && j + 3 <= z <= |p| && Size(p, o) == 3 && Size(p, j) == 3 && !p[o].Mem? && !p[j].Mem?
    requires Nests(p, o + 3, open, j, open) && Nests(p, j + 3, open, z, open)
    ensures Nests(p, o, open, z, open)
  {
    hide *;
    NestsOne(p, o, open, open, 3);
    NestsOne(p, j, open, open, 3);
    NestsTrans(p, j, open, j + 3, open, z, open);
    NestsTrans(p, o + 3, open, j, open, z, open);
    NestsTrans(p, o, open, o + 3, open, z, open);
  }

  lemma GroupNests(p: Program, o: nat, z: nat, g: byte, open: seq<byte>)
    requires o + 2 <= z && z + 2 <= |p| && p[o] == Mem(g, true, o + 2) && p[z] == Mem(g, false, z + 2)
    requires Nests(p, o + 2, open + [g], z, open + [g])
    ensures Nests(p, o, open, z + 2, open)
  {
    hide *;
    MemSize(p, o);
    MemSize(p, z);
    NestsOne(p, o, open, open + [g], 2);
    NestsOne(p, z, open + [g], open, 2);
    NestsTrans(p, o, open, o + 2, open + [g], z, open + [g]);
    NestsTrans(p, o, open, z, open + [g], z + 2, open);
  }

  lemma LoopNests(p: Program, o: nat, n: nat, open: seq<byte>)
    requires o + 6 + n <= |p| && p[o].Fork? && p[o + 3 + n].StarJump? && Nests(p, o + 3, open, o + 3 + n, open)
    ensures Nests(p, o, open, o + 6 + n, open)
  {
    hide *;
    JumpSize(p, o);
    JumpSize(p, o + 3 + n);
    NestsOne(p, o, open, open, 3);
    NestsOne(p, o + 3 + n, open, open, 3);
    NestsTrans(p, o, open, o + 3, open, o + 3 + n, open);
    NestsTrans(p, o, open, o + 3 + n, open, o + 6 + n, open);
  }

  lemma JumpSize(p: Program, o: int)
    requires 0 <= o < |p| && (p[o].Fork? || p[o].StarJump? || p[o].Dummy?)
    ensures Size(p, o) == 3
  {
  }

  lemma MemSize(p: Program, o: int)
    requires 0 <= o < |p| && p[o].Mem?
    ensures Size(p, o) == 2
  {
  }

  lemma LeafNests(p: Program, o: nat, re: Re, open: seq<byte>)
    requires re.Eps? || re.Atom? || re.Assert? || re.Backref?
    requires Fits(p, o, re)
    ensures Nests(p, o, open, o + Len(re), open)
  {
    if !re.Eps? { assert Nests(p, o + Size(p, o), open, o + Len(re), open); }
  }

  /** In compiled code the marks of groups are in pairs with equal registers, and the pairs nest. */
  lemma GroupsNest(p: Program, re: Re)
    requires Compiled(p, re)
    ensures Nests(p, 0, [], Len(re), [])
  {
    hide Fits, Len, Nests;
    NodeNests(p, 0, re, []);
  }

  // ----- zero-width operators -----

  ghost predicate OnlyEolTests(p: Program, S: set<int>) {
    forall pc :: pc in S && 0 <= pc < |p| && p[pc].Test? ==> p[pc].a.Eol?
  }

  lemma {:induction false} NodeOnlyEol(p: Program, o: nat, re: Re)
    requires Fits(p, o, re) && OnlyEol(re)
    ensures OnlyEolTests(p, Starts(re, o))
    decreases re, 1
  {
    hide *;
    if re.Eps? || re.Atom? || re.Assert? || re.Backref? { LeafOnlyEol(p, o, re); }
    else if re.Seq? || re.Alt? { PairOnlyEol(p, o, re); }
    else if re.Opt? || re.Group? { WrapOnlyEol(p, o, re); }
    else { LoopOnlyEol(p, o, re); }
  }

  lemma {:induction false} PairOnlyEol(p: Program, o: nat, re: Re)
    requires Fits(p, o, re) && OnlyEol(re) && (re.Seq? || re.Alt?)
    ensures OnlyEolTests(p, Starts(re, o))
    decreases re, 0
  {
    hide *;
    OnlyEolParts(re);
    match re
    case Seq(l, r) =>
      SeqLayout(p, o, l, r);
      NodeOnlyEol(p, o, l);
      NodeOnlyEol(p, o + Len(l), r);
      SeqStarts(o, l, r);
      OnlyEolUnion(p, Starts(re, o), {}, Starts(l, o), Starts(r, o + Len(l)));
    case Alt(l, r) =>
      AltLayout(p, o, l, r);
      NodeOnlyEol(p, o + 3, l);
      NodeOnlyEol(p, o + 6 + Len(l), r);
      AltStarts(o, l, r);
      OnlyEolUnion(p, Starts(re, o), {o, o + 3 + Len(l)}, Starts(l, o + 3), Starts(r, o + 6 + Len(l)));
  }

  lemma AltStarts(o: nat, l: Re, r: Re)
    ensures Starts(Alt(l, r), o) == {o, o + 3 + Len(l)} + Starts(l, o + 3) + Starts(r, o + 6 + Len(l))
    ensures Len(Alt(l, r)) == 6 + Len(l) + Len(r)
  {
  }

  lemma OnlyEolParts(re: Re)
    requires OnlyEol(re)
    ensures re.Seq? || re.Alt? ==> OnlyEol(re.left) && OnlyEol(re.right)
    ensures re.Opt? || re.Star? || re.Plus? || re.Group? ==> OnlyEol(re.body)
  {
  }

  lemma OnlyEolUnion(p: Program, all: set<int>, own: set<int>, a: set<int>, b: set<int>)
    requires OnlyEolTests(p, a) && OnlyEolTests(p, b) && all <= own + a + b
    requires forall pc :: pc in own && 0 <= pc < |p| ==> !p[pc].Test?
    ensures OnlyEolTests(p, all)
  {
  }

  lemma {:induction false} WrapOnlyEol(p: Program, o: nat, re: Re)
    requires Fits(p, o, re) && OnlyEol(re) && (re.Opt? || re.Group?)
    ensures OnlyEolTests(p, Starts(re, o))
    decreases re, 0
  {
    hide *;
    OnlyEolParts(re);
    BodyStarts(o, re);
    NoTests(p);
    match re
    case Opt(b) =>
      OptLayout(p, o, b);
      NodeOnlyEol(p, o + 3, b);
      OnlyEolUnion(p, Starts(re, o), {o}, Starts(b, o + 3), {});
    case Group(g, b) =>
      GroupLayout(p, o, g, b);
      var x := if g == 0 then o else o + 2;
      NodeOnlyEol(p, x, b);
      OnlyEolUnion(p, Starts(re, o), if g == 0 then {} else {o, o + 2 + Len(b)}, Starts(b, x), {});
  }

  lemma BodyStarts(o: nat, re: Re)
    ensures re.Opt? ==> Starts(re, o) == {o} + Starts(re.body, o + 3)
    ensures re.Star? ==> Starts(re, o) == {o, o + 3 + Len(re.body)} + Starts(re.body, o + 3)
    ensures re.Plus? ==> Starts(re, o) == {o, o + 3, o + 6 + Len(re.body)} + Starts(re.body, o + 6)
    ensures re.Group? ==> Starts(re, o) == if re.reg == 0 then Starts(re.body, o)
      else {o, o + 2 + Len(re.body)} + Starts(re.body, o + 2)
  {
  }

  lemma NoTests(p: Program)
    ensures OnlyEolTests(p, {})
  {
  }

  lemma {:induction false} LoopOnlyEol(p: Program, o: nat, re: Re)
    requires Fits(p, o, re) && OnlyEol(re) && (re.Star? || re.Plus?)
    ensures OnlyEolTests(p, Starts(re, o))
    decreases re, 0
  {
    hide *;
    OnlyEolParts(re);
    BodyStarts(o, re);
    NoTests(p);
    match re
    case Star(b) =>
      StarLayout(p, o, b);
      LoopLayout(p, o, b);
      NodeOnlyEol(p, o + 3, b);
      OnlyEolUnion(p, Starts(re, o), {o, o + 3 + Len(b)}, Starts(b, o + 3), {});
    case Plus(b) =>
      PlusLayout(p, o, b);
      NodeOnlyEol(p, o + 6, b);
      OnlyEolUnion(p, Starts(re, o), {o, o + 3, o + 6 + Len(b)}, Starts(b, o + 6), {});
  }

  lemma LeafOnlyEol(p: Program, o: nat, re: Re)
    requires re.Eps? || re.Atom? || re.Assert? || re.Backref?
    requires Fits(p, o, re) && OnlyEol(re)
    ensures OnlyEolTests(p, Starts(re, o))
  {
  }

  lemma CompiledOnlyEol(p: Program, re: Re)
    requires Compiled(p, re) && OnlyEol(re)
    ensures OnlyEolTests(p, AllStarts(re))
  {
    hide Fits, Starts, OnlyEol;
    NodeOnlyEol(p, 0, re);
  }
}
