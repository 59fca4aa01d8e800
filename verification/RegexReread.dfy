/** Every pattern that can be read is read again, as the same tree, from the form in which it is printed. */
module RegexReread {
  import opened RegexSyntax
  import opened RegexProgram
  import opened RegexParse
  import opened RegexPrint

  // ----- the shape of what has been read -----

  /** Complete alternatives, and items in a row. */
  predicate FrameOk(f: Frame) {
    && (forall i :: 0 <= i < |f.alts| ==> IsCat(f.alts[i]))
    && IsCat(f.pre) && (f.last.Eps? || (IsItem(f.last) && !EndsEol(f.pre)))
  }

  /** A frame in which a group has been opened. */
  predicate OuterOk(f: Frame) {
    FrameOk(f) && f.last.Eps? && !EndsEol(f.pre)
  }

  /** Behind a `$` that is an operator, its alternative ends. */
  predicate ShapeOk(st: State, s: seq<byte>, pos: nat) {
    && (forall k :: 0 <= k < |st.outer| ==> OuterOk(st.outer[k]))
    && FrameOk(st.cur) && (st.begin ==> Blank(st.cur))
    && (EndsEol(Snoc(st.cur.pre, st.cur.last)) ==> EndsHere(s, pos))
  }

  lemma SnocCat(pre: Re, last: Re)
    requires IsCat(pre) && (last.Eps? || (IsItem(last) && !EndsEol(pre)))
    ensures IsCat(Snoc(pre, last)) && (EndsEol(Snoc(pre, last)) <==> last.Eps? && EndsEol(pre))
  {
  }

  lemma EolCat(pre: Re)
    requires IsCat(pre) && !EndsEol(pre)
    ensures IsCat(Snoc(pre, Assert(Eol)))
  {
    hide IsItem;
  }

  lemma TokenItem(s: seq<byte>, pos: nat)
    requires pos < |s|
    ensures var tok := TokenAt(s, pos).0;
      && (tok.Item? ==> IsItem(tok.leaf) && !tok.leaf.Eps? && (tok.leaf.Atom? || tok.leaf.Assert? || tok.leaf.Backref?))
      && (tok.Dollar? ==> (tok.last <==> EndsHere(s, TokenAt(s, pos).1)))
      && (tok.Postfix? ==> tok.op == STAR || tok.op == PLUS || tok.op == QUESTION)
      && (EndsHere(s, pos) ==> tok.Bar? || tok.Close?)
  {
    hide ReadSet;
  }

  /** The state after one operator is well-shaped again. */
  lemma FeedShape(st: State, s: seq<byte>, pos: nat, st': State)
    requires pos < |s| && ShapeOk(st, s, pos) && Feed(st, TokenAt(s, pos).0) == Ok(st')
    ensures ShapeOk(st', s, TokenAt(s, pos).1)
  {
    hide TokenAt, IsItem, IsCat, EndsHere, EndsEol, Build;
    TokenItem(s, pos);
    var f, tok := st.cur, TokenAt(s, pos).0;
    SnocCat(f.pre, f.last);
    NoEol();
    match tok
    case Item(leaf) => SnocCat(Snoc(f.pre, f.last), leaf);
    case Caret => CaretShape(f, st.begin);
    case Dollar(last) => DollarShape(f, last);
    case Postfix(op) =>
      if st.begin { ItemIs(op); SnocCat(Snoc(f.pre, f.last), Atom(Exact(op))); } else { ApplyShape(f, op); }
    case Bar =>
    case Open =>
    case Close => if st.outer != [] { CloseShape(st.outer[|st.outer| - 1], f); }
    case Wrong(_) =>
  }

  lemma NoEol()
    ensures !EndsEol(Eps) && IsCat(Eps) && Snoc(Eps, Eps) == Eps
  {
  }

  lemma ItemIs(c: byte)
    ensures IsItem(Atom(Exact(c))) && !EndsEol(Atom(Exact(c)))
  {
  }

  lemma CaretShape(f: Frame, begin: bool)
    requires FrameOk(f) && (begin ==> Blank(f)) && !EndsEol(Snoc(f.pre, f.last))
    ensures var g := Merge(Shift(f, if begin then Assert(Bol) else Atom(Exact(CARET))));
      FrameOk(g) && g.last.Eps? && !EndsEol(Snoc(g.pre, g.last))
  {
    SnocCat(f.pre, f.last);
    ItemIs(CARET);
    if !begin { SnocCat(Snoc(f.pre, f.last), Atom(Exact(CARET))); }
    hide IsItem;
  }

  lemma DollarShape(f: Frame, last: bool)
    requires FrameOk(f) && !EndsEol(Snoc(f.pre, f.last))
    ensures var g := Merge(Shift(f, if last then Assert(Eol) else Atom(Exact(DOLLAR))));
      FrameOk(g) && g.last.Eps? && (!last ==> !EndsEol(Snoc(g.pre, g.last)))
  {
    SnocCat(f.pre, f.last);
    ItemIs(DOLLAR);
    if last { EolCat(Snoc(f.pre, f.last)); } else { SnocCat(Snoc(f.pre, f.last), Atom(Exact(DOLLAR))); }
    hide IsItem, IsCat;
  }

  lemma ApplyShape(f: Frame, op: byte)
    requires FrameOk(f) && !EndsEol(Snoc(f.pre, f.last))
    ensures FrameOk(Apply(f, op)) && !EndsEol(Snoc(Apply(f, op).pre, Apply(f, op).last))
  {
    if Len(f.last) > 0 {
      var item := if op == QUESTION then Opt(f.last) else if op == STAR then Star(f.last) else Plus(f.last);
      assert IsItem(item);
      SnocCat(f.pre, item);
    }
    hide IsCat;
  }

  lemma CloseShape(outer: Frame, f: Frame)
    requires OuterOk(outer) && FrameOk(f)
    ensures var g := outer.(last := Group(f.reg, Build(f))); FrameOk(g) && !EndsEol(Snoc(g.pre, g.last))
  {
    hide IsCat, EndsEol, Build;
    BuildAlt(f);
    assert IsItem(Group(f.reg, Build(f)));
    SnocCat(outer.pre, Group(f.reg, Build(f)));
  }

  lemma BuildAlt(f: Frame)
    requires FrameOk(f)
    ensures IsAlt(Build(f))
  {
    hide IsItem, IsCat, AltFold;
    SnocCat(f.pre, f.last);
    CatIsAlt(Snoc(f.pre, f.last));
    FoldAlt(f.alts, Snoc(f.pre, f.last));
  }

  lemma CatIsAlt(re: Re)
    requires IsCat(re)
    ensures IsAlt(re)
  {
  }

  lemma {:induction false} FoldAlt(alts: seq<Re>, body: Re)
    requires (forall i :: 0 <= i < |alts| ==> IsCat(alts[i])) && IsAlt(body)
    ensures IsAlt(AltFold(alts, body))
    decreases |alts|
  {
    hide IsCat;
    if alts != [] { FoldAlt(alts[..|alts| - 1], Alt(alts[|alts| - 1], body)); }
  }

  // ----- registers and depths -----

  /** The next register behind alternatives. */
  function AltsNext(alts: seq<Re>, n: nat): nat {
    if alts == [] then n else NextReg(alts[|alts| - 1], AltsNext(alts[..|alts| - 1], n))
  }

  predicate AltsNumbered(alts: seq<Re>, n: nat) {
    alts == [] || (AltsNumbered(alts[..|alts| - 1], n) && Numbered(alts[|alts| - 1], AltsNext(alts[..|alts| - 1], n)))
  }

  /** pending alternatives are open in front of these. */
  predicate AltsShallow(alts: seq<Re>, depth: nat, pending: nat) {
    alts == [] || (
      && AltsShallow(alts[..|alts| - 1], depth, pending)
      && Shallow(alts[|alts| - 1], depth, pending + |alts| - 1) && pending + |alts| - 1 < MAX_NESTING)
  }

  lemma AltsSnoc(alts: seq<Re>, x: Re, n: nat, depth: nat, pending: nat)
    ensures AltsNext(alts + [x], n) == NextReg(x, AltsNext(alts, n))
    ensures AltsNumbered(alts + [x], n) <==> AltsNumbered(alts, n) && Numbered(x, AltsNext(alts, n))
    ensures AltsShallow(alts + [x], depth, pending) <==>
      AltsShallow(alts, depth, pending) && Shallow(x, depth, pending + |alts|) && pending + |alts| < MAX_NESTING
  {
    hide NextReg, Numbered, Shallow;
    assert (alts + [x])[..|alts|] == alts;
  }

  lemma {:induction false} FoldCounts(alts: seq<Re>, body: Re, n: nat, depth: nat, pending: nat)
    ensures NextReg(AltFold(alts, body), n) == NextReg(body, AltsNext(alts, n))
    ensures AltsNumbered(alts, n) && Numbered(body, AltsNext(alts, n)) ==> Numbered(AltFold(alts, body), n)
    ensures AltsShallow(alts, depth, pending) && Shallow(body, depth, pending + |alts|) ==>
      Shallow(AltFold(alts, body), depth, pending)
    decreases |alts|
  {
    if alts != [] {
      var init, l := alts[..|alts| - 1], alts[|alts| - 1];
      AltCounts(l, body, AltsNext(init, n), depth, pending + |init|);
      FoldCounts(init, Alt(l, body), n, depth, pending);
    }
    hide NextReg, Numbered, Shallow;
  }

  lemma AltCounts(l: Re, r: Re, n: nat, depth: nat, pending: nat)
    ensures NextReg(Alt(l, r), n) == NextReg(r, NextReg(l, n))
    ensures Numbered(Alt(l, r), n) <==> Numbered(l, n) && Numbered(r, NextReg(l, n))
    ensures Shallow(Alt(l, r), depth, pending) <==>
      Shallow(l, depth, pending) && pending < MAX_NESTING && Shallow(r, depth, pending + 1)
  {
  }

  lemma SnocCounts(l: Re, r: Re, n: nat, depth: nat, pending: nat)
    ensures NextReg(Snoc(l, r), n) == NextReg(r, NextReg(l, n))
    ensures Numbered(Snoc(l, r), n) <==> Numbered(l, n) && Numbered(r, NextReg(l, n))
    ensures Shallow(Snoc(l, r), depth, pending) <==> Shallow(l, depth, pending) && Shallow(r, depth, pending)
  {
  }

  lemma PostfixCounts(b: Re, n: nat, depth: nat, pending: nat)
    ensures forall re | re == Opt(b) || re == Star(b) || re == Plus(b) ::
      NextReg(re, n) == NextReg(b, n) && (Numbered(re, n) <==> Numbered(b, n))
        && (Shallow(re, depth, pending) <==> Shallow(b, depth, pending))
  {
  }

  lemma LeafCounts(re: Re, n: nat, depth: nat, pending: nat)
    requires re.Eps? || re.Atom? || re.Assert? || re.Backref?
    ensures NextReg(re, n) == n && Numbered(re, n) && Shallow(re, depth, pending)
  {
  }

  function After(n: nat): nat {
    if n < RE_NREGS then n + 1 else n
  }

  function Given(n: nat): byte {
    if n < RE_NREGS then n else 0
  }

  lemma GroupCounts(g: byte, b: Re, n: nat, depth: nat, pending: nat)
    ensures NextReg(Group(g, b), n) == NextReg(b, After(n))
    ensures Numbered(Group(g, b), n) <==> g == Given(n) && Numbered(b, After(n))
    ensures Shallow(Group(g, b), depth, pending) <==> depth < MAX_NESTING - 1 && Shallow(b, depth + 1, pending)
  {
  }

  /** The part of a frame that is still growing. */
  function Body(f: Frame): Re {
    Snoc(f.pre, f.last)
  }

  /** The contents of f, which begin with register n, at a depth and with alternatives pending, are right, and the
      next register is m. */
  predicate Counts(f: Frame, n: nat, depth: nat, pending: nat, m: nat) {
    && AltsNumbered(f.alts, n) && Numbered(Body(f), AltsNext(f.alts, n)) && NextReg(Body(f), AltsNext(f.alts, n)) == m
    && AltsShallow(f.alts, depth, pending) && Shallow(Body(f), depth, pending + |f.alts|)
  }

  /** All frames count right, each group takes its register where it begins, and the next one is m. */
  ghost predicate AllCount(frames: seq<Frame>, m: nat)
    decreases |frames|
  {
    frames == [] ||
    var init, f := frames[..|frames| - 1], frames[|frames| - 1];
    if init == [] then Counts(f, 1, 0, 0, m)
    else exists k: nat :: AllCount(init, k) && f.reg == Given(k) && Counts(f, After(k), |init|, Pending(init), m)
  }

  lemma BodyCounts(f: Frame, n: nat, depth: nat, pending: nat, m: nat)
    requires Counts(f, n, depth, pending, m)
    ensures Numbered(Build(f), n) && NextReg(Build(f), n) == m && Shallow(Build(f), depth, pending)
  {
    hide Numbered, NextReg, Shallow, AltsNumbered, AltsNext, AltsShallow, Snoc;
    FoldCounts(f.alts, Body(f), n, depth, pending);
  }

  lemma AllCountIs(init: seq<Frame>, f: Frame, m: nat)
    ensures AllCount(init + [f], m) <==>
      if init == [] then Counts(f, 1, 0, 0, m)
      else exists k: nat :: AllCount(init, k) && f.reg == Given(k) && Counts(f, After(k), |init|, Pending(init), m)
  {
    hide Counts, Pending;
    assert (init + [f])[..|init|] == init;
  }

  /** The last frame has changed. */
  lemma LastChanged(init: seq<Frame>, f: Frame, g: Frame, m: nat)
    requires AllCount(init + [f], m) && g.reg == f.reg
    requires forall n: nat, d: nat, p: nat | p == Pending(init) && Counts(f, n, d, p, m) :: Counts(g, n, d, p, m)
    ensures AllCount(init + [g], m)
  {
    hide Counts, AllCount;
    AllCountIs(init, f, m);
    AllCountIs(init, g, m);
    if init == [] {
      assert Pending(init) == 0;
    } else {
      var k: nat :| AllCount(init, k) && f.reg == Given(k) && Counts(f, After(k), |init|, Pending(init), m);
      assert Counts(g, After(k), |init|, Pending(init), m);
    }
  }

  lemma BodyIs(f: Frame, item: Re)
    ensures Body(Shift(f, item)) == Snoc(Body(f), item) && Body(Merge(f)) == Body(f)
    ensures Shift(f, item).alts == f.alts == Merge(f).alts && Shift(f, item).reg == f.reg == Merge(f).reg
    ensures Body(Frame(f.reg, f.alts, Eps, Eps)) == Eps
  {
  }

  lemma CountsIs(f: Frame, n: nat, d: nat, p: nat, m: nat)
    ensures Counts(f, n, d, p, m) <==>
      && AltsNumbered(f.alts, n) && Numbered(Body(f), AltsNext(f.alts, n)) && NextReg(Body(f), AltsNext(f.alts, n)) == m
      && AltsShallow(f.alts, d, p) && Shallow(Body(f), d, p + |f.alts|)
  {
    hide Numbered, NextReg, Shallow, AltsNumbered, AltsNext, AltsShallow, Body;
  }

  lemma CountItem(f: Frame, item: Re, n: nat, d: nat, p: nat, m: nat)
    requires Counts(f, n, d, p, m) && (item.Eps? || item.Atom? || item.Assert? || item.Backref?)
    ensures Counts(Shift(f, item), n, d, p, m) && Counts(Merge(Shift(f, item)), n, d, p, m)
  {
    hide *;
    var g := Shift(f, item);
    BodyIs(f, item);
    BodyIs(g, item);
    CountsIs(f, n, d, p, m);
    CountsIs(g, n, d, p, m);
    CountsIs(Merge(g), n, d, p, m);
    var k := AltsNext(f.alts, n);
    SnocCounts(Body(f), item, k, d, p + |f.alts|);
    LeafCounts(item, NextReg(Body(f), k), d, p + |f.alts|);
  }

  lemma CountApply(f: Frame, op: byte, n: nat, d: nat, p: nat, m: nat)
    requires Counts(f, n, d, p, m)
    ensures Counts(Apply(f, op), n, d, p, m)
  {
    if Len(f.last) > 0 {
      var g := Apply(f, op);
      CountsIs(f, n, d, p, m);
      CountsIs(g, n, d, p, m);
      var k := AltsNext(f.alts, n);
      SnocCounts(f.pre, f.last, k, d, p + |f.alts|);
      SnocCounts(g.pre, g.last, k, d, p + |f.alts|);
      PostfixCounts(f.last, NextReg(f.pre, k), d, p + |f.alts|);
      hide Numbered, NextReg, Shallow, AltsNumbered, AltsNext, AltsShallow, Snoc, Counts;
    }
  }

  lemma CountBar(f: Frame, n: nat, d: nat, p: nat, m: nat)
    requires Counts(f, n, d, p, m) && p + |f.alts| < MAX_NESTING
    ensures Counts(Frame(f.reg, f.alts + [Snoc(f.pre, f.last)], Eps, Eps), n, d, p, m)
  {
    hide *;
    var g := Frame(f.reg, f.alts + [Snoc(f.pre, f.last)], Eps, Eps);
    CountsIs(f, n, d, p, m);
    CountsIs(g, n, d, p, m);
    assert Body(f) == Snoc(f.pre, f.last) && Body(g) == Eps by { BodyOf(f); BodyIs(g, Eps); }
    AltsSnoc(f.alts, Body(f), n, d, p);
    LeafCounts(Eps, m, d, p + |g.alts|);
  }

  lemma BodyOf(f: Frame)
    ensures Body(f) == Snoc(f.pre, f.last)
  {
  }

  lemma CountGroup(g: Frame, f: Frame, n: nat, d: nat, p: nat, k: nat, m: nat)
    requires Counts(g, n, d, p, k) && g.last.Eps? && d < MAX_NESTING - 1
    requires f.reg == Given(k) && Counts(f, After(k), d + 1, p + |g.alts|, m)
    ensures Counts(g.(last := Group(f.reg, Build(f))), n, d, p, m)
  {
    hide *;
    var item := Group(f.reg, Build(f));
    var h := g.(last := item);
    BodyOf(g);
    BodyOf(h);
    SnocWith(g.pre);
    CountsIs(g, n, d, p, k);
    CountsIs(h, n, d, p, m);
    BodyCounts(f, After(k), d + 1, p + |g.alts|, m);
    SnocCounts(g.pre, item, AltsNext(g.alts, n), d, p + |g.alts|);
    GroupCounts(f.reg, Build(f), k, d, p + |g.alts|);
  }

  lemma SnocWith(l: Re)
    ensures Snoc(l, Eps) == l
  {
  }

  ghost predicate CountOk(st: State) {
    AllCount(Frames(st), st.next) && |st.outer| < MAX_NESTING
  }

  lemma PendingSnoc(init: seq<Frame>, f: Frame)
    ensures Pending(init + [f]) == Pending(init) + |f.alts|
  {
    assert (init + [f])[..|init|] == init;
  }

  lemma FrameChanged(st: State, g: Frame, begin: bool)
    requires CountOk(st) && g.reg == st.cur.reg
    requires forall n: nat, d: nat, p: nat | p == Pending(st.outer) && Counts(st.cur, n, d, p, st.next) ::
      Counts(g, n, d, p, st.next)
    ensures CountOk(st.(cur := g, begin := begin))
  {
    hide Counts, AllCount;
    LastChanged(st.outer, st.cur, g, st.next);
  }

  lemma OpenCounts(st: State)
    requires CountOk(st) && Feed(st, Open).Ok?
    ensures CountOk(Feed(st, Open).value)
  {
    hide Counts, AllCount, Merge, Pending;
    var f := Merge(st.cur);
    var init, g := st.outer + [f], Frame(Given(st.next), [], Eps, Eps);
    MergeCounts(st);
    FreshCounts(g, After(st.next), |init|, Pending(init));
    AllCountIs(init, g, After(st.next));
    assert AllCount(init, st.next) && g.reg == Given(st.next);
    assert Feed(st, Open).value == State(init, g, After(st.next), true);
  }

  lemma MergeCounts(st: State)
    requires CountOk(st)
    ensures AllCount(st.outer + [Merge(st.cur)], st.next)
  {
    hide Counts, AllCount;
    forall n: nat, d: nat, p: nat | p == Pending(st.outer) && Counts(st.cur, n, d, p, st.next)
      ensures Counts(Merge(st.cur), n, d, p, st.next) {
      BodyIs(st.cur, Eps);
      CountsIs(st.cur, n, d, p, st.next);
      CountsIs(Merge(st.cur), n, d, p, st.next);
    }
    BodyIs(st.cur, Eps);
    hide Merge;
    LastChanged(st.outer, st.cur, Merge(st.cur), st.next);
  }

  lemma FreshCounts(g: Frame, n: nat, d: nat, p: nat)
    requires g.alts == [] && g.pre.Eps? && g.last.Eps?
    ensures Counts(g, n, d, p, n)
  {
  }

  lemma CloseCounts(st: State)
    requires CountOk(st) && st.outer != [] && st.outer[|st.outer| - 1].last.Eps?
    ensures Feed(st, Close).Ok? && CountOk(Feed(st, Close).value)
  {
    hide Counts, AllCount, Build, Pending;
    var init, g, f, m := st.outer[..|st.outer| - 1], st.outer[|st.outer| - 1], st.cur, st.next;
    assert st.outer == init + [g];
    AllCountIs(st.outer, f, m);
    var k: nat :| AllCount(st.outer, k) && f.reg == Given(k)
      && Counts(f, After(k), |st.outer|, Pending(st.outer), m);
    AllCountIs(init, g, k);
    PendingSnoc(init, g);
    var h := g.(last := Group(f.reg, Build(f)));
    AllCountIs(init, h, m);
    if init == [] {
      assert Pending(init) == 0 by { NonePending(); }
      CountGroup(g, f, 1, 0, 0, k, m);
    } else {
      var j: nat :| AllCount(init, j) && g.reg == Given(j) && Counts(g, After(j), |init|, Pending(init), k);
      CountGroup(g, f, After(j), |init|, Pending(init), k, m);
    }
  }

  lemma NonePending()
    ensures Pending([]) == 0
  {
  }

  /** One operator keeps registers, depths and pending alternatives right. */
  lemma FeedCounts(st: State, tok: Token, st': State)
    requires CountOk(st) && Feed(st, tok) == Ok(st')
    requires tok.Item? ==> tok.leaf.Atom? || tok.leaf.Assert? || tok.leaf.Backref?
    requires tok.Close? && st.outer != [] ==> st.outer[|st.outer| - 1].last.Eps?
    ensures CountOk(st')
  {
    hide Counts, CountOk, Shift, Merge, Apply, Snoc, Pending;
    var f := st.cur;
    match tok
    case Item(leaf) => ItemCounts(st, leaf);
    case Caret => ItemCounts(st, if st.begin then Assert(Bol) else Atom(Exact(CARET)));
    case Dollar(last) => ItemCounts(st, if last then Assert(Eol) else Atom(Exact(DOLLAR)));
    case Postfix(op) => if st.begin { ItemCounts(st, Atom(Exact(op))); } else { ApplyCounts(st, op); }
    case Bar => BarCounts(st);
    case Open => OpenCounts(st);
    case Close => CloseCounts(st);
    case Wrong(_) =>
  }

  lemma ItemCounts(st: State, item: Re)
    requires CountOk(st) && (item.Atom? || item.Assert?  || item.Backref?)
    ensures CountOk(st.(cur := Shift(st.cur, item), begin := false))
    ensures CountOk(st.(cur := Merge(Shift(st.cur, item)), begin := false))
  {
    hide Counts, CountOk, Shift, Merge;
    var f := st.cur;
    forall n: nat, d: nat, p: nat | p == Pending(st.outer) && Counts(f, n, d, p, st.next)
      ensures Counts(Shift(f, item), n, d, p, st.next) && Counts(Merge(Shift(f, item)), n, d, p, st.next) {
      CountItem(f, item, n, d, p, st.next);
    }
    BodyIs(f, item);
    BodyIs(Shift(f, item), item);
    FrameChanged(st, Shift(f, item), false);
    FrameChanged(st, Merge(Shift(f, item)), false);
  }

  lemma ApplyCounts(st: State, op: byte)
    requires CountOk(st)
    ensures CountOk(st.(cur := Apply(st.cur, op), begin := false))
  {
    hide Counts, CountOk;
    var f := st.cur;
    forall n: nat, d: nat, p: nat | p == Pending(st.outer) && Counts(f, n, d, p, st.next)
      ensures Counts(Apply(f, op), n, d, p, st.next) {
      CountApply(f, op, n, d, p, st.next);
    }
    FrameChanged(st, Apply(f, op), false);
  }

  lemma BarCounts(st: State)
    requires CountOk(st) && Feed(st, Bar).Ok?
    ensures CountOk(Feed(st, Bar).value)
  {
    hide Counts, CountOk, Snoc, Pending;
    var f := st.cur;
    var g := Frame(f.reg, f.alts + [Snoc(f.pre, f.last)], Eps, Eps);
    PendingSnoc(st.outer, f);
    forall n: nat, d: nat, p: nat | p == Pending(st.outer) && Counts(f, n, d, p, st.next)
      ensures Counts(g, n, d, p, st.next) {
      CountBar(f, n, d, p, st.next);
    }
    FrameChanged(st, g, true);
  }

  // ----- whole patterns -----

  lemma {:induction false} ReadFrom(s: seq<byte>, pos: nat, st: State)
    requires pos <= |s| && ShapeOk(st, s, pos) && CountOk(st) && ParseFrom(s, pos, st).Ok?
    ensures Printable(ParseFrom(s, pos, st).value)
    decreases |s| - pos
  {
    hide *;
    if pos == |s| {
      ParseEnd(s, st);
      Finished(s, st);
    } else {
      ParseStep(s, pos, st);
      TokenEnds(s, pos);
      var (tok, next) := TokenAt(s, pos);
      var st' := Feed(st, tok).value;
      TokenItem(s, pos);
      OuterEps(st, s, pos);
      FeedShape(st, s, pos, st');
      FeedCounts(st, tok, st');
      ReadFrom(s, next, st');
    }
  }

  lemma TokenEnds(s: seq<byte>, pos: nat)
    requires pos < |s|
    ensures pos < TokenAt(s, pos).1 && (!TokenAt(s, pos).0.Wrong? ==> TokenAt(s, pos).1 <= |s|)
    ensures forall st :: TokenAt(s, pos).0.Wrong? ==> Feed(st, TokenAt(s, pos).0).Err?
  {
    hide ReadMembers, Quoted;
    ReadForward(s, pos + 1, -1, false, true, {});
    ReadForward(s, pos + 2, -1, false, true, {});
  }

  lemma OuterEps(st: State, s: seq<byte>, pos: nat)
    requires ShapeOk(st, s, pos)
    ensures st.outer != [] ==> st.outer[|st.outer| - 1].last.Eps?
    ensures FrameOk(st.cur)
  {
    hide FrameOk, EndsEol, EndsHere, Snoc;
  }

  lemma Finished(s: seq<byte>, st: State)
    requires ShapeOk(st, s, |s|) && CountOk(st) && st.outer == []
    ensures Printable(Build(st.cur))
  {
    hide *;
    OuterEps(st, s, |s|);
    BuildAlt(st.cur);
    WholeCounts(st);
    BodyCounts(st.cur, 1, 0, 0, st.next);
    PrintableIs(Build(st.cur));
  }

  lemma WholeCounts(st: State)
    requires CountOk(st) && st.outer == []
    ensures Counts(st.cur, 1, 0, 0, st.next)
  {
    hide Counts, AllCount;
    AllCountIs([], st.cur, st.next);
  }

  lemma PrintableIs(re: Re)
    ensures Printable(re) <==> IsAlt(re) && Numbered(re, 1) && Shallow(re, 0, 0)
  {
    hide IsAlt, Numbered, Shallow;
  }

  lemma StartOk(s: seq<byte>)
    ensures ShapeOk(Start(), s, 0) && CountOk(Start())
  {
    FreshCounts(Start().cur, 1, 0, 0);
    AllCountIs([], Start().cur, 1);
    hide AllCount, Counts;
    assert Frames(Start()) == [] + [Start().cur];
  }

  /** Every pattern that can be read can be printed. */
  lemma ReadIsPrintable(s: seq<byte>)
    requires Parse(s).Ok?
    ensures Printable(Parse(s).value)
  {
    hide *;
    ParseStart(s);
    StartOk(s);
    ReadFrom(s, 0, Start());
  }

  /** And what has been printed is read as the same pattern. */
  lemma Reread(s: seq<byte>)
    requires Parse(s).Ok?
    ensures Parse(Print(Parse(s).value)) == Parse(s)
  {
    hide *;
    ReadIsPrintable(s);
    RoundTrip(Parse(s).value);
  }
}
