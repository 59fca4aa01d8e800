/** Compiled patterns as programs, their paths, and the correctness of the code layout.

    A program gives the instruction decoded at each byte offset of the compiled pattern, with
    jump displacements already turned into absolute offsets. */
module RegexProgram {
  import opened RegexSyntax

  datatype Instr =
    | End
    | Eat(cl: CharClass, next: int)     // Cset, Cexact, Canychar, Csyntaxspec, Cnotsyntaxspec
    | Test(a: Assertion, next: int)     // the zero-width operators
    | Mem(reg: byte, opens: bool, next: int)  // Cstart_memory if it opens the group, Cend_memory
    | Back(reg: byte, next: int)        // Cmatch_memory
    | Jump(next: int)                   // Cjump
    | StarJump(next: int)               // Cstar_jump
    | UpdateJump(next: int)             // Cupdate_failure_jump
    | Fork(next: int, alt: int)         // Cfailure_jump: push alt with the text position, go on
    | Dummy(next: int, alt: int)        // Cdummy_failure_jump: push alt with no text, go to next
    | Bad
  {
    /** The instruction lets the matcher go on at `next`. */
    predicate Passes(text: seq<byte>, t: nat)
      requires t <= |text|
    {
      match this
      case Eat(cl, _) => t < |text| && Accepts(cl, text[t])
      case Test(a, _) => Holds(a, text, t)
      case End => false
      case Back(_, _) => false
      case Bad => false
      case _ => true
    }

    function Width(): nat {
      if Eat? then 1 else 0
    }
  }

  type Program = seq<Instr>

  /** Bytes of code that re compiles to. */
  function Len(re: Re): nat {
    match re
    case Eps => 0
    case Atom(cl) => AtomLen(cl)
    case Assert(_) => 1
    case Backref(_) => 2
    case Seq(l, r) => Len(l) + Len(r)
    case Alt(l, r) => 6 + Len(l) + Len(r)
    case Opt(b) => 3 + Len(b)
    case Star(b) => 6 + Len(b)
    case Plus(b) => 9 + Len(b)
    case Group(g, b) => if g == 0 then Len(b) else 4 + Len(b)
  }

  function AtomLen(cl: CharClass): nat {
    match cl
    case InSet(_) => 33
    case AnyChar => 1
    case _ => 2
  }

  // Where the jumps of a node lie, given the lengths of its parts.

  ghost predicate LeafShape(p: Program, o: nat, re: Re) {
    match re
    case Atom(cl) => o + AtomLen(cl) <= |p| && p[o] == Eat(cl, o + AtomLen(cl))
    case Assert(a) => o + 1 <= |p| && p[o] == Test(a, o + 1)
    case Backref(n) => o + 2 <= |p| && p[o] == Back(n, o + 2)
    case _ => o <= |p|
  }

  ghost predicate AltShape(p: Program, o: nat, m: nat, n: nat) {
    o + 6 + m + n <= |p| && p[o] == Fork(o + 3, o + 6 + m) && p[o + 3 + m] == Jump(o + 6 + m + n)
  }

  ghost predicate OptShape(p: Program, o: nat, n: nat) {
    o + 3 + n <= |p| && p[o] == Fork(o + 3, o + 3 + n)
  }

  ghost predicate LoopShape(p: Program, o: nat, n: nat) {
    o + 6 + n <= |p| && p[o] == Fork(o + 3, o + 6 + n) && p[o + 3 + n] == StarJump(o)
  }

  ghost predicate PlusShape(p: Program, o: nat, n: nat) {
    o + 9 + n <= |p| && p[o] == Dummy(o + 6, o + 9 + n)
  }

  ghost predicate GroupShape(p: Program, o: nat, g: byte, n: nat) {
    o + 4 + n <= |p| && p[o] == Mem(g, true, o + 2) && p[o + 2 + n] == Mem(g, false, o + 4 + n)
  }

  /** The instructions of re lie at offset o of p. */
  ghost predicate Fits(p: Program, o: nat, re: Re)
    decreases re, 0
  {
    match re
    case Seq(l, r) => Fits(p, o, l) && Fits(p, o + Len(l), r)
    case Alt(l, r) => AltShape(p, o, Len(l), Len(r)) && Fits(p, o + 3, l) && Fits(p, o + 6 + Len(l), r)
    case Opt(b) => OptShape(p, o, Len(b)) && Fits(p, o + 3, b)
    case Star(b) => LoopFits(p, o, b)
    case Plus(b) => PlusShape(p, o, Len(b)) && LoopFits(p, o + 3, b)
    case Group(g, b) => if g == 0 then Fits(p, o, b) else GroupShape(p, o, g, Len(b)) && Fits(p, o + 2, b)
    case _ => LeafShape(p, o, re)
  }

  ghost predicate LoopFits(p: Program, o: nat, b: Re)
    decreases b, 1
  {
    LoopShape(p, o, Len(b)) && Fits(p, o + 3, b)
  }

  /** A whole compiled pattern: the code of re, then Cend. */
  ghost predicate Compiled(p: Program, re: Re) {
    |p| == Len(re) + 1 && Fits(p, 0, re) && p[Len(re)] == End
  }

  /** Some path of at most n steps leads from pc at text position t to Cend at text position e. */
  predicate Acc(p: Program, text: seq<byte>, pc: int, t: nat, e: nat, n: nat)
    requires t <= |text|
    decreases n
  {
    && 0 <= pc < |p|
    && if p[pc].End? then t == e
       else
         && n > 0
         && (|| (p[pc].Passes(text, t) && Acc(p, text, p[pc].next, t + p[pc].Width(), e, n - 1))
             || (p[pc].Fork? && Acc(p, text, p[pc].alt, t, e, n - 1)))
  }

  // What Fits says of each kind of node.

  lemma SeqLayout(p: Program, o: nat, l: Re, r: Re)
    requires Fits(p, o, Seq(l, r))
    ensures Fits(p, o, l) && Fits(p, o + Len(l), r)
    ensures Len(Seq(l, r)) == Len(l) + Len(r)
  {
  }

  lemma AltLayout(p: Program, o: nat, l: Re, r: Re)
    requires Fits(p, o, Alt(l, r))
    ensures Len(Alt(l, r)) == 6 + Len(l) + Len(r) && o + Len(Alt(l, r)) <= |p|
    ensures p[o] == Fork(o + 3, o + 6 + Len(l)) && p[o + 3 + Len(l)] == Jump(o + Len(Alt(l, r)))
    ensures Fits(p, o + 3, l) && Fits(p, o + 6 + Len(l), r)
  {
  }

  lemma OptLayout(p: Program, o: nat, b: Re)
    requires Fits(p, o, Opt(b))
    ensures Len(Opt(b)) == 3 + Len(b) && o + Len(Opt(b)) <= |p|
    ensures p[o] == Fork(o + 3, o + Len(Opt(b))) && Fits(p, o + 3, b)
  {
  }

  lemma StarLayout(p: Program, o: nat, b: Re)
    requires Fits(p, o, Star(b))
    ensures Len(Star(b)) == 6 + Len(b) && LoopFits(p, o, b)
  {
  }

  lemma LoopLayout(p: Program, o: nat, b: Re)
    requires LoopFits(p, o, b)
    ensures o + 6 + Len(b) <= |p|
    ensures p[o] == Fork(o + 3, o + 6 + Len(b)) && p[o + 3 + Len(b)] == StarJump(o) && Fits(p, o + 3, b)
  {
  }

  lemma PlusLayout(p: Program, o: nat, b: Re)
    requires Fits(p, o, Plus(b))
    ensures Len(Plus(b)) == 9 + Len(b) && o + Len(Plus(b)) <= |p|
    ensures p[o] == Dummy(o + 6, o + Len(Plus(b))) && LoopFits(p, o + 3, b)
    ensures p[o + 3] == Fork(o + 6, o + Len(Plus(b))) && p[o + 6 + Len(b)] == StarJump(o + 3) && Fits(p, o + 6, b)
  {
  }

  lemma GroupLayout(p: Program, o: nat, g: byte, b: Re)
    requires Fits(p, o, Group(g, b))
    ensures g == 0 ==> Len(Group(g, b)) == Len(b) && Fits(p, o, b)
    ensures g != 0 ==>
      && Len(Group(g, b)) == 4 + Len(b) && o + Len(Group(g, b)) <= |p| && Fits(p, o + 2, b)
      && p[o] == Mem(g, true, o + 2) && p[o + 2 + Len(b)] == Mem(g, false, o + Len(Group(g, b)))
  {
  }

  // Single steps of Acc, so that the proofs below need not unfold it.

  lemma ForkCases(p: Program, text: seq<byte>, pc: int, t: nat, e: nat, n: nat) returns (first: bool)
    requires 0 <= pc < |p| && p[pc].Fork?
    requires t <= |text| && Acc(p, text, pc, t, e, n)
    ensures n > 0 && Acc(p, text, if first then p[pc].next else p[pc].alt, t, e, n - 1)
  {
    first := Acc(p, text, p[pc].next, t, e, n - 1);
  }

  lemma Onward(p: Program, text: seq<byte>, pc: int, t: nat, e: nat, n: nat)
    requires 0 <= pc < |p| && !p[pc].Fork? && !p[pc].End?
    requires t <= |text| && Acc(p, text, pc, t, e, n)
    ensures n > 0 && p[pc].Passes(text, t) && Acc(p, text, p[pc].next, t + p[pc].Width(), e, n - 1)
    ensures !p[pc].Eat? ==> p[pc].Width() == 0
  {
  }

  lemma ViaNext(p: Program, text: seq<byte>, pc: int, t: nat, e: nat, n: nat)
    requires 0 <= pc < |p| && t <= |text| && !p[pc].Eat? && p[pc].Passes(text, t)
    requires Acc(p, text, p[pc].next, t, e, n)
    ensures Acc(p, text, pc, t, e, n + 1)
  {
  }

  lemma ViaAlt(p: Program, text: seq<byte>, pc: int, t: nat, e: nat, n: nat)
    requires 0 <= pc < |p| && t <= |text| && p[pc].Fork?
    requires Acc(p, text, p[pc].alt, t, e, n)
    ensures Acc(p, text, pc, t, e, n + 1)
  {
  }

  /** Path to tree: an accepting path through the code of re starts with a match of re. */
  lemma {:induction false} PathTree(p: Program, o: nat, re: Re, text: seq<byte>, t: nat, e: nat, n: nat)
      returns (d: Tree, j: nat, m: nat)
    requires Fits(p, o, re) && NoBackref(re)
    requires t <= |text| && Acc(p, text, o, t, e, n)
    ensures t <= j <= |text| && m <= n
    ensures Derives(d, re, text, t, j) && Acc(p, text, o + Len(re), j, e, m)
    decreases re, 1, n
  {
    hide *;
    if re.Eps? || re.Atom? || re.Assert? || re.Backref? {
      d, j, m := PathLeaf(p, o, re, text, t, e, n);
    } else {
      match re
      case Seq(l, r) => d, j, m := PathSeq(p, o, l, r, text, t, e, n);
      case Alt(l, r) => d, j, m := PathAlt(p, o, l, r, text, t, e, n);
      case Opt(b) => d, j, m := PathOpt(p, o, b, text, t, e, n);
      case Star(b) => d, j, m := PathStar(p, o, b, text, t, e, n);
      case Plus(b) => d, j, m := PathPlus(p, o, b, text, t, e, n);
      case Group(g, b) => d, j, m := PathGroup(p, o, g, b, text, t, e, n);
    }
  }

  lemma PathLeaf(p: Program, o: nat, re: Re, text: seq<byte>, t: nat, e: nat, n: nat)
      returns (d: Tree, j: nat, m: nat)
    requires re.Eps? || re.Atom? || re.Assert? || re.Backref?
    requires Fits(p, o, re) && NoBackref(re)
    requires t <= |text| && Acc(p, text, o, t, e, n)
    ensures t <= j <= |text| && m <= n
    ensures Derives(d, re, text, t, j) && Acc(p, text, o + Len(re), j, e, m)
  {
    d := Leaf;
    match re
    case Eps => j, m := t, n;
    case Atom(_) => j, m := t + 1, n - 1;
    case Assert(_) => j, m := t, n - 1;
  }

  lemma {:induction false} PathSeq(p: Program, o: nat, l: Re, r: Re, text: seq<byte>, t: nat, e: nat, n: nat)
      returns (d: Tree, j: nat, m: nat)
    requires Fits(p, o, Seq(l, r)) && NoBackref(Seq(l, r))
    requires t <= |text| && Acc(p, text, o, t, e, n)
    ensures t <= j <= |text| && m <= n
    ensures Derives(d, Seq(l, r), text, t, j) && Acc(p, text, o + Len(Seq(l, r)), j, e, m)
    decreases Seq(l, r), 0, n
  {
    var x := o + Len(l);
    assert NoBackref(l) && NoBackref(r) by { hide Acc, Fits, Len, Derives; }
    {
      hide *;
      SeqLayout(p, o, l, r);
      var d1, k, n1 := PathTree(p, o, l, text, t, e, n);
      d, j, m := PathTree(p, x, r, text, k, e, n1);
      d := Then(k, d1, d);
    }
    assert Derives(d, Seq(l, r), text, t, j) by { hide Acc, Fits, Len, NoBackref; }
    hide *;
  }

  lemma {:induction false} PathAlt(p: Program, o: nat, l: Re, r: Re, text: seq<byte>, t: nat, e: nat, n: nat)
      returns (d: Tree, j: nat, m: nat)
    requires Fits(p, o, Alt(l, r)) && NoBackref(Alt(l, r))
    requires t <= |text| && Acc(p, text, o, t, e, n)
    ensures t <= j <= |text| && m <= n
    ensures Derives(d, Alt(l, r), text, t, j) && Acc(p, text, o + Len(Alt(l, r)), j, e, m)
    decreases Alt(l, r), 0, n
  {
    var x, y, z := o + 3, o + 6 + Len(l), o + Len(Alt(l, r));
    assert NoBackref(l) && NoBackref(r) by { hide Acc, Fits, Len, Derives; }
    {
      hide *;
      AltLayout(p, o, l, r);
      var first := ForkCases(p, text, o, t, e, n);
      if first {
        d, j, m := PathTree(p, x, l, text, t, e, n - 1);
        Onward(p, text, x + Len(l), j, e, m);
        d, m := InLeft(d), m - 1;
      } else {
        d, j, m := PathTree(p, y, r, text, t, e, n - 1);
        d := InRight(d);
      }
    }
    assert Derives(d, Alt(l, r), text, t, j) by { hide Acc, Fits, Len, NoBackref; }
    hide *;
  }

  lemma {:induction false} PathOpt(p: Program, o: nat, b: Re, text: seq<byte>, t: nat, e: nat, n: nat)
      returns (d: Tree, j: nat, m: nat)
    requires Fits(p, o, Opt(b)) && NoBackref(Opt(b))
    requires t <= |text| && Acc(p, text, o, t, e, n)
    ensures t <= j <= |text| && m <= n
    ensures Derives(d, Opt(b), text, t, j) && Acc(p, text, o + Len(Opt(b)), j, e, m)
    decreases Opt(b), 0, n
  {
    var x, z := o + 3, o + Len(Opt(b));
    assert NoBackref(b) by { hide Acc, Fits, Len, Derives; }
    {
      hide *;
      OptLayout(p, o, b);
      var first := ForkCases(p, text, o, t, e, n);
      if first {
        d, j, m := PathTree(p, x, b, text, t, e, n - 1);
        d := InLeft(d);
      } else {
        d, j, m := Leaf, t, n - 1;
      }
    }
    assert Derives(d, Opt(b), text, t, j) by { hide Acc, Fits, Len, NoBackref; }
    hide *;
  }

  lemma {:induction false} PathStar(p: Program, o: nat, b: Re, text: seq<byte>, t: nat, e: nat, n: nat)
      returns (d: Tree, j: nat, m: nat)
    requires Fits(p, o, Star(b)) && NoBackref(Star(b))
    requires t <= |text| && Acc(p, text, o, t, e, n)
    ensures t <= j <= |text| && m <= n
    ensures Derives(d, Star(b), text, t, j) && Acc(p, text, o + Len(Star(b)), j, e, m)
    decreases Star(b), 0, n
  {
    assert NoBackref(b) by { hide Acc, Fits, Len, Derives; }
    {
      hide *;
      StarLayout(p, o, b);
      d, j, m := PathMany(p, o, b, text, t, e, n);
    }
    assert Derives(d, Star(b), text, t, j) by { hide Acc, Fits, Len, NoBackref; }
    hide *;
  }

  lemma {:induction false} PathMany(p: Program, o: nat, b: Re, text: seq<byte>, t: nat, e: nat, n: nat)
      returns (d: Tree, j: nat, m: nat)
    requires LoopFits(p, o, b) && NoBackref(b)
    requires t <= |text| && Acc(p, text, o, t, e, n)
    ensures t <= j <= |text| && m <= n
    ensures DerivesMany(d, b, text, t, j) && Acc(p, text, o + 6 + Len(b), j, e, m)
    decreases b, 2, n
  {
    LoopLayout(p, o, b);
    hide LoopFits, Fits, Len, NoBackref, Derives, Acc;
    var more := ForkCases(p, text, o, t, e, n);
    if more {
      var d1, k, n1 := PathTree(p, o + 3, b, text, t, e, n - 1);
      Onward(p, text, o + 3 + Len(b), k, e, n1);
      d, j, m := PathMany(p, o, b, text, k, e, n1 - 1);
      d := Then(k, d1, d);
    } else {
      d, j, m := Leaf, t, n - 1;
    }
  }

  lemma {:induction false} PathPlus(p: Program, o: nat, b: Re, text: seq<byte>, t: nat, e: nat, n: nat)
      returns (d: Tree, j: nat, m: nat)
    requires Fits(p, o, Plus(b)) && NoBackref(Plus(b))
    requires t <= |text| && Acc(p, text, o, t, e, n)
    ensures t <= j <= |text| && m <= n
    ensures Derives(d, Plus(b), text, t, j) && Acc(p, text, o + Len(Plus(b)), j, e, m)
    decreases Plus(b), 0, n
  {
    var x, y, z := o + 3, o + 6, o + Len(Plus(b));
    assert NoBackref(b) by { hide Acc, Fits, Len, Derives; }
    {
      hide *;
      PlusLayout(p, o, b);
      Onward(p, text, o, t, e, n);
      var d1, k, n1 := PathTree(p, y, b, text, t, e, n - 1);
      Onward(p, text, y + Len(b), k, e, n1);
      d, j, m := PathMany(p, x, b, text, k, e, n1 - 1);
      d := Then(k, d1, d);
    }
    assert Derives(d, Plus(b), text, t, j) by { hide Acc, Fits, Len, NoBackref; }
    hide *;
  }

  lemma {:induction false} PathGroup(p: Program, o: nat, g: byte, b: Re, text: seq<byte>, t: nat, e: nat, n: nat)
      returns (d: Tree, j: nat, m: nat)
    requires Fits(p, o, Group(g, b)) && NoBackref(Group(g, b))
    requires t <= |text| && Acc(p, text, o, t, e, n)
    ensures t <= j <= |text| && m <= n
    ensures Derives(d, Group(g, b), text, t, j) && Acc(p, text, o + Len(Group(g, b)), j, e, m)
    decreases Group(g, b), 0, n
  {
    var x, z := o + 2, o + Len(Group(g, b));
    assert NoBackref(b) by { hide Acc, Fits, Len, Derives; }
    {
      hide *;
      GroupLayout(p, o, g, b);
      if g == 0 {
        d, j, m := PathTree(p, o, b, text, t, e, n);
      } else {
        Onward(p, text, o, t, e, n);
        d, j, m := PathTree(p, x, b, text, t, e, n - 1);
        Onward(p, text, x + Len(b), j, e, m);
        m := m - 1;
      }
    }
    assert Derives(d, Group(g, b), text, t, j) by { hide Acc, Fits, Len, NoBackref; }
    hide *;
  }

  /** Tree to path: a match of re extends an accepting path to the left. */
  lemma {:induction false} TreePath(p: Program, o: nat, re: Re, text: seq<byte>, d: Tree, t: nat, j: nat, e: nat,
          m: nat)
      returns (n: nat)
    requires Fits(p, o, re)
    requires t <= |text| && j <= |text| && Derives(d, re, text, t, j) && Acc(p, text, o + Len(re), j, e, m)
    ensures Acc(p, text, o, t, e, n)
    decreases re, 1, d
  {
    hide *;
    if re.Eps? || re.Atom? || re.Assert? || re.Backref? {
      n := LeafPath(p, o, re, text, d, t, j, e, m);
    } else {
      match re
      case Seq(l, r) => n := SeqPath(p, o, l, r, text, d, t, j, e, m);
      case Alt(l, r) => n := AltPath(p, o, l, r, text, d, t, j, e, m);
      case Opt(b) => n := OptPath(p, o, b, text, d, t, j, e, m);
      case Star(b) => n := StarPath(p, o, b, text, d, t, j, e, m);
      case Plus(b) => n := PlusPath(p, o, b, text, d, t, j, e, m);
      case Group(g, b) => n := GroupPath(p, o, g, b, text, d, t, j, e, m);
    }
  }

  lemma LeafPath(p: Program, o: nat, re: Re, text: seq<byte>, d: Tree, t: nat, j: nat, e: nat, m: nat)
      returns (n: nat)
    requires re.Eps? || re.Atom? || re.Assert? || re.Backref?
    requires Fits(p, o, re)
    requires t <= |text| && j <= |text| && Derives(d, re, text, t, j) && Acc(p, text, o + Len(re), j, e, m)
    ensures Acc(p, text, o, t, e, n)
  {
    n := if re.Eps? then m else m + 1;
  }

  lemma {:induction false} SeqPath(p: Program, o: nat, l: Re, r: Re, text: seq<byte>, d: Tree, t: nat, j: nat, e: nat,
          m: nat)
      returns (n: nat)
    requires Fits(p, o, Seq(l, r))
    requires t <= |text| && j <= |text| && Derives(d, Seq(l, r), text, t, j)
      && Acc(p, text, o + Len(Seq(l, r)), j, e, m)
    ensures Acc(p, text, o, t, e, n)
    decreases Seq(l, r), 0, d
  {
    var x := o + Len(l);
    assert Derives(d.fst, l, text, t, d.mid) && Derives(d.snd, r, text, d.mid, j) by { hide Acc, Fits, Len; }
    hide *;
    SeqLayout(p, o, l, r);
    n := TreePath(p, x, r, text, d.snd, d.mid, j, e, m);
    n := TreePath(p, o, l, text, d.fst, t, d.mid, e, n);
  }

  lemma {:induction false} AltPath(p: Program, o: nat, l: Re, r: Re, text: seq<byte>, d: Tree, t: nat, j: nat, e: nat,
          m: nat)
      returns (n: nat)
    requires Fits(p, o, Alt(l, r))
    requires t <= |text| && j <= |text| && Derives(d, Alt(l, r), text, t, j)
      && Acc(p, text, o + Len(Alt(l, r)), j, e, m)
    ensures Acc(p, text, o, t, e, n)
    decreases Alt(l, r), 0, d
  {
    var x, y, z := o + 3, o + 6 + Len(l), o + Len(Alt(l, r));
    assert if d.InLeft? then Derives(d.sub, l, text, t, j) else d.InRight? && Derives(d.sub, r, text, t, j)
      by { hide Acc, Fits, Len; }
    hide *;
    AltLayout(p, o, l, r);
    if d.InLeft? {
      ViaNext(p, text, x + Len(l), j, e, m);
      n := TreePath(p, x, l, text, d.sub, t, j, e, m + 1);
      ViaNext(p, text, o, t, e, n);
    } else {
      n := TreePath(p, y, r, text, d.sub, t, j, e, m);
      ViaAlt(p, text, o, t, e, n);
    }
    n := n + 1;
  }

  lemma {:induction false} OptPath(p: Program, o: nat, b: Re, text: seq<byte>, d: Tree, t: nat, j: nat, e: nat, m: nat)
      returns (n: nat)
    requires Fits(p, o, Opt(b))
    requires t <= |text| && j <= |text| && Derives(d, Opt(b), text, t, j) && Acc(p, text, o + Len(Opt(b)), j, e, m)
    ensures Acc(p, text, o, t, e, n)
    decreases Opt(b), 0, d
  {
    var x, z := o + 3, o + Len(Opt(b));
    assert if d.InLeft? then Derives(d.sub, b, text, t, j) else t == j by { hide Acc, Fits, Len; }
    hide *;
    OptLayout(p, o, b);
    if d.InLeft? {
      n := TreePath(p, x, b, text, d.sub, t, j, e, m);
      ViaNext(p, text, o, t, e, n);
    } else {
      n := m;
      ViaAlt(p, text, o, t, e, n);
    }
    n := n + 1;
  }

  lemma {:induction false} StarPath(p: Program, o: nat, b: Re, text: seq<byte>, d: Tree, t: nat, j: nat, e: nat, m: nat)
      returns (n: nat)
    requires Fits(p, o, Star(b))
    requires t <= |text| && j <= |text| && Derives(d, Star(b), text, t, j) && Acc(p, text, o + Len(Star(b)), j, e, m)
    ensures Acc(p, text, o, t, e, n)
    decreases Star(b), 0, d
  {
    assert DerivesMany(d, b, text, t, j) by { hide Acc, Fits, Len; }
    hide *;
    StarLayout(p, o, b);
    n := ManyPath(p, o, b, text, d, t, j, e, m);
  }

  lemma {:induction false} ManyPath(p: Program, o: nat, b: Re, text: seq<byte>, d: Tree, t: nat, j: nat, e: nat, m: nat)
      returns (n: nat)
    requires LoopFits(p, o, b)
    requires t <= |text| && j <= |text| && DerivesMany(d, b, text, t, j) && Acc(p, text, o + 6 + Len(b), j, e, m)
    ensures Acc(p, text, o, t, e, n)
    decreases b, 2, d
  {
    LoopLayout(p, o, b);
    hide LoopFits, Fits, Len, Derives, Acc;
    if d.Then? {
      n := ManyPath(p, o, b, text, d.snd, d.mid, j, e, m);
      ViaNext(p, text, o + 3 + Len(b), d.mid, e, n);
      n := TreePath(p, o + 3, b, text, d.fst, t, d.mid, e, n + 1);
      ViaNext(p, text, o, t, e, n);
    } else {
      n := m;
      ViaAlt(p, text, o, t, e, n);
    }
    n := n + 1;
  }

  lemma {:induction false} PlusPath(p: Program, o: nat, b: Re, text: seq<byte>, d: Tree, t: nat, j: nat, e: nat, m: nat)
      returns (n: nat)
    requires Fits(p, o, Plus(b))
    requires t <= |text| && j <= |text| && Derives(d, Plus(b), text, t, j) && Acc(p, text, o + Len(Plus(b)), j, e, m)
    ensures Acc(p, text, o, t, e, n)
    decreases Plus(b), 0, d
  {
    var x, y, z := o + 3, o + 6, o + Len(Plus(b));
    assert Derives(d.fst, b, text, t, d.mid) && DerivesMany(d.snd, b, text, d.mid, j) by { hide Acc, Fits, Len; }
    hide *;
    PlusLayout(p, o, b);
    n := ManyPath(p, x, b, text, d.snd, d.mid, j, e, m);
    ViaNext(p, text, y + Len(b), d.mid, e, n);
    n := TreePath(p, y, b, text, d.fst, t, d.mid, e, n + 1);
    ViaNext(p, text, o, t, e, n);
    n := n + 1;
  }

  lemma {:induction false} GroupPath(p: Program, o: nat, g: byte, b: Re, text: seq<byte>, d: Tree, t: nat, j: nat,
          e: nat, m: nat)
      returns (n: nat)
    requires Fits(p, o, Group(g, b))
    requires t <= |text| && j <= |text| && Derives(d, Group(g, b), text, t, j)
      && Acc(p, text, o + Len(Group(g, b)), j, e, m)
    ensures Acc(p, text, o, t, e, n)
    decreases Group(g, b), 0, d
  {
    var x, z := o + 2, o + Len(Group(g, b));
    assert Derives(d, b, text, t, j) by { hide Acc, Fits, Len; }
    hide *;
    GroupLayout(p, o, g, b);
    if g == 0 {
      n := TreePath(p, o, b, text, d, t, j, e, m);
    } else {
      ViaNext(p, text, x + Len(b), j, e, m);
      n := TreePath(p, x, b, text, d, t, j, e, m + 1);
      ViaNext(p, text, o, t, e, n);
      n := n + 1;
    }
  }

  /** The code of a pattern accepts exactly the pattern's language. */
  lemma CodeMeansPattern(p: Program, re: Re, text: seq<byte>, i: nat, e: nat)
    requires Compiled(p, re) && NoBackref(re) && i <= |text| && e <= |text|
    ensures (exists n: nat :: Acc(p, text, 0, i, e, n)) <==> Matches(re, text, i, e)
  {
    hide Matches, Derives, Fits, NoBackref, Len;
    if n: nat :| Acc(p, text, 0, i, e, n) {
      var d, j, m := PathTree(p, 0, re, text, i, e, n);
      TreeMatches(d, re, text, i, j);
    }
    if Matches(re, text, i, e) {
      var d := MatchTree(re, text, i, e);
      var n := TreePath(p, 0, re, text, d, i, e, e, 0);
      assert exists k: nat :: Acc(p, text, 0, i, e, k);
    }
  }
}
