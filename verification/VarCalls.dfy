/** What a call of a function does to the variables of its caller. */
module VarCalls {
  import opened VarTrees
  import opened VarFrames
  import Control

  function Run(t: Table, ops: seq<Op>): Table
    decreases |ops|
  {
    if ops == [] then t else Run(Step(t, ops[0]), ops[1..])
  }

  /** The operations of a function body that has not returned yet; d calls in it are open. */
  predicate Within(ops: seq<Op>, d: nat)
    decreases |ops|
  {
    ops == [] || if ops[0].Return? then d > 0 && Within(ops[1..], d - 1) else Within(ops[1..], Opened(ops[0], d))
  }

  /** The calls that are open behind an operation. */
  function Opened(op: Op, d: nat): nat {
    if op.Call? then d + 1 else if op.Return? && d > 0 then d - 1 else d
  }

  function Depth(ops: seq<Op>, d: nat): nat
    decreases |ops|
  {
    if ops == [] then d else Depth(ops[1..], Opened(ops[0], d))
  }

  /** A whole body: the calls in it have returned. */
  predicate Nested(ops: seq<Op>) {
    Within(ops, 0) && Depth(ops, 0) == 0
  }

  /** No function that calls another one comes back to the variables of the main program. */
  predicate NeverStrays(t: Table, ops: seq<Op>)
    decreases |ops|
  {
    t.settled && (ops == [] || NeverStrays(Step(t, ops[0]), ops[1..]))
  }

  /** The names that the operations declare global. */
  function Declared(ops: seq<Op>): set<seq<byte>>
    decreases |ops|
  {
    if ops == [] then {} else (if ops[0].Declare? then set n | n in ops[0].names else {}) + Declared(ops[1..])
  }

  // ----- Global -----

  /** After Global a name is a stub if it was one, or if it is declared and did not stand for anything,
      not even for something that is deleted. */
  lemma {:induction false} DeclaredExactly(t: Table, names: seq<seq<byte>>, n: seq<byte>)
    requires t.settled && t.s.locals != []
    ensures var t' := DeclareIn(t, names);
      && t' == t.(s := t'.s)
      && t'.s.main == t.s.main && |t'.s.locals| == |t.s.locals| && t'.s.locals[1..] == t.s.locals[1..]
      && (n in t'.s.locals[0] <==> n in t.s.locals[0] || n in names)
      && (IsStub(t'.s, n) <==> IsStub(t.s, n) || (n in names && n !in t.s.locals[0]))
    decreases |names|
  {
    if names != [] {
      var t1 := if Read(t, names[0]).Nothing? then SetIn(t, names[0], ZERO, GLOBAL, 0) else t;
      assert t1.s.locals != [] && t1.s.locals[1..] == t.s.locals[1..];
      DeclaredExactly(t1, names[1..], n);
      assert n in names <==> n == names[0] || n in names[1..];
    }
  }

  predicate IsMainStub(t: Table, n: seq<byte>) {
    n in t.s.main && t.s.main[n].scope == GLOBAL
  }

  /** A function that has come back to the variables of the main program puts the stubs among these. */
  lemma {:induction false} DeclaredStray(t: Table, names: seq<seq<byte>>, n: seq<byte>)
    requires !t.settled && t.s.locals != []
    ensures var t' := DeclareIn(t, names);
      && t' == t.(s := t'.s) && t'.s.locals == t.s.locals
      && (n in t'.s.main <==> n in t.s.main || n in names)
      && (IsMainStub(t', n) <==> IsMainStub(t, n) || (n in names && n !in t.s.main))
    decreases |names|
  {
    if names != [] {
      var t1 := if Read(t, names[0]).Nothing? then SetIn(t, names[0], ZERO, GLOBAL, 0) else t;
      DeclaredStray(t1, names[1..], n);
      assert n in names <==> n == names[0] || n in names[1..];
    }
  }

  /** A name that Global makes stands for the integer 0 as long as it is not looked up. */
  lemma DeclaredValue(t: Table, n: seq<byte>)
    requires t.settled && t.s.locals != [] && n !in t.s.locals[0]
    ensures var s := DeclareIn(t, [n]).s;
      s.locals != [] && n in s.locals[0]
        && s.locals[0][n] == Var(Control.Value(Control.LNUMBER, 0, 0.0, "0"), false, 4, 0)
  {
    assert [n][1..] == [];
    var t1 := SetIn(t, n, ZERO, GLOBAL, 0);
    assert DeclareIn(t1, []) == t1;
  }

  // ----- what is read back -----

  /** What is read after an assignment: the value under the name, and under every other name what was read
      before.  Assigning through a stub is lost as long as the main program has no variables. */
  lemma ReadAssigned(t: Table, n: seq<byte>, v: Control.Value, inc: int, m: seq<byte>)
    requires !t.hung && !Hangs(t, n) && inc != -2
    ensures var t' := Step(t, Assign(n, v, inc));
      && (m != n ==> Read(t', m) == Read(t, m))
      && (!t.settled || !IsStub(t.s, n) ==> Read(t', n) == Something(v))
      && (t.settled && IsStub(t.s, n) ==>
            Read(t', n) == if t.s.main == map[] || !Visible(t.s.locals[0][n]) then Nothing else Something(v))
  {
  }

  /** After deletion nothing is read under the name, and under the others what was read before. */
  lemma ReadDeleted(t: Table, n: seq<byte>, m: seq<byte>)
    requires !t.hung
    ensures var t' := Step(t, Delete(n)); Read(t', n) == Nothing && (m != n ==> Read(t', m) == Read(t, m))
  {
  }

  /** Securing hides the variables that GET arguments have made, where the pattern hits, and no others. */
  lemma ReadSecured(t: Table, hit: seq<byte> -> bool, m: seq<byte>)
    requires !t.hung && t.s.locals == [] && t.settled
    ensures Read(Step(t, Secure(hit)), m) ==
      if m in t.s.main && hit(m) && t.s.main[m].flag == -1 then Nothing else Read(t, m)
  {
  }

  // ----- calls of SetVar that do not return -----

  /** SetVar calls itself, on the variables of the main program. */
  predicate CallsItself(t: Table, onMain: bool, n: seq<byte>) {
    t.s.locals != [] && if onMain then IsMainStub(t, n) else IsStub(t.s, n)
  }

  /** There are k calls of SetVar inside each other. */
  predicate Deep(t: Table, onMain: bool, n: seq<byte>, k: nat)
    decreases k
  {
    k == 0 || (CallsItself(t, onMain, n) && Deep(t, true, n, k - 1))
  }

  ghost predicate Endless(t: Table, onMain: bool, n: seq<byte>) {
    forall k: nat :: Deep(t, onMain, n, k)
  }

  /** SetVar goes on calling itself exactly when it comes to a stub among the main program's variables. */
  lemma NeverReturns(t: Table, n: seq<byte>)
    ensures Endless(t, !t.settled, n) <==> Hangs(t, n)
  {
    if Hangs(t, n) {
      var onMain := !t.settled;
      forall k: nat ensures Deep(t, onMain, n, k) { if k > 0 { StaysDeep(t, n, k - 1); } }
    } else {
      assert Deep(t, true, n, 1) ==> CallsItself(t, true, n);
      assert !Deep(t, !t.settled, n, 2);
    }
  }

  lemma {:induction false} StaysDeep(t: Table, n: seq<byte>, k: nat)
    requires t.s.locals != [] && IsMainStub(t, n)
    ensures Deep(t, true, n, k)
    decreases k
  {
    if k > 0 { StaysDeep(t, n, k - 1); }
  }

  /** A function without variables that has called another one declares a new name and assigns to it:
      this never returns. */
  lemma StrayHangs(t: Table, n: seq<byte>, v: Control.Value)
    requires !t.hung && t.s.main != map[] && n !in t.s.main
    ensures Run(t, [Call, Call, Return, Declare([n]), Assign(n, v, 0)]).hung
  {
    var t1 := Step(t, Call);
    var t2 := Step(t1, Call);
    var t3 := Step(t2, Return);
    var t4 := Step(t3, Declare([n]));
    assert t2.s.locals[1..] == t1.s.locals;
    DeclaredStray(t3, [n], n);
    RunFour(t, Call, Call, Return, Declare([n]));
    RunSnoc(t, [Call, Call, Return, Declare([n])], Assign(n, v, 0));
    assert [Call, Call, Return, Declare([n])] + [Assign(n, v, 0)] ==
      [Call, Call, Return, Declare([n]), Assign(n, v, 0)];
    hide Run;
  }

  // ----- the tables that there are -----

  const START := Table(State(map[], []), true, false)

  /** A function whose tree is not the current one has no variables, and the main program has some. */
  predicate Proper(t: Table) {
    t.settled || (t.s.locals != [] && t.s.locals[0] == map[] && t.s.main != map[])
  }

  lemma StaysProper(t: Table, op: Op)
    requires Proper(t)
    ensures Proper(Step(t, op))
  {
    if !t.settled && !t.hung {
      match op
      case Assign(n, v, inc) => assert n in Put(t.s.main, n, v, 0, inc);
      case Delete(n) => if n in t.s.main { assert n in Gone(t.s.main, n); }
      case Declare(names) =>
        var n :| n in t.s.main;
        DeclaredStray(t, names, n);
      case Secure(hit) => assert SecureMap(t.s.main, hit).Keys == t.s.main.Keys;
      case _ =>
    } else if op.Declare? && !t.hung && t.s.locals != [] {
      DeclaredExactly(t, op.names, []);
    }
  }

  /** Operations lead to no other tables. */
  lemma {:induction false} AlwaysProper(t: Table, ops: seq<Op>)
    requires Proper(t)
    ensures Proper(Run(t, ops)) && Proper(START)
    decreases |ops|
  {
    hide Step, Proper;
    if ops != [] {
      StaysProper(t, ops[0]);
      AlwaysProper(Step(t, ops[0]), ops[1..]);
    }
    StartProper();
  }

  lemma StartProper()
    ensures Proper(START)
  {
  }

  lemma {:induction false} RunSnoc(t: Table, ops: seq<Op>, op: Op)
    ensures Run(t, ops + [op]) == Step(Run(t, ops), op)
    decreases |ops|
  {
    hide Step;
    if ops == [] {
      assert ([] + [op])[1..] == [];
    } else {
      assert (ops + [op])[1..] == ops[1..] + [op];
      RunSnoc(Step(t, ops[0]), ops[1..], op);
    }
  }

  // ----- one step -----

  /** A function assigns to a variable of the main program under a name that it has not declared
      exactly when its tree is not the current one, and the call returns. */
  lemma StraysExactly(t: Table, n: seq<byte>)
    requires !t.hung && t.s.locals != [] && !IsStub(t.s, n)
    ensures (forall v :: Step(t, Assign(n, v, 0)).s.main == t.s.main) <==> t.settled || Hangs(t, n)
  {
    if !t.settled && !Hangs(t, n) {
      var v, w := Control.Value(Control.LNUMBER, 0, 0.0, ""), Control.Value(Control.LNUMBER, 1, 0.0, "");
      assert Step(t, Assign(n, v, 0)).s.main[n].value == v;
      assert Step(t, Assign(n, w, 0)).s.main[n].value == w;
    }
  }

  /** A function comes back to its own tree exactly when it has variables, or the main program has
      none. */
  lemma ReturnStrays(t: Table)
    requires !t.hung && |t.s.locals| > 1
    ensures Step(t, Return).settled <==> t.s.locals[1] != map[] || t.s.main == map[]
  {
  }

  // ----- a call -----

  /** The functions that have been called, d + 1 of them, lie over the frames of the caller, and what
      they have declared global is in dec. */
  ghost predicate Above(t: Table, base: seq<map<seq<byte>, Var>>, d: nat, dec: set<seq<byte>>) {
    t.hung || (
      && |t.s.locals| == d + 1 + |base| && t.s.locals[d + 1..] == base
      && forall k, n :: 0 <= k <= d && n in t.s.locals[k] && t.s.locals[k][n].scope == GLOBAL ==> n in dec)
  }

  /** The variables agree outside of dec. */
  ghost predicate Agree(m: map<seq<byte>, Var>, m': map<seq<byte>, Var>, dec: set<seq<byte>>) {
    (m == map[] <==> m' == map[]) && forall n :: n !in dec ==> (n in m <==> n in m') && (n in m ==> m'[n] == m[n])
  }

  lemma StepKeeps(t: Table, op: Op, base: seq<map<seq<byte>, Var>>, d: nat, dec: set<seq<byte>>)
    requires Above(t, base, d, dec) && t.settled && Declared([op]) <= dec && (op.Return? ==> d > 0)
    ensures Above(Step(t, op), base, Opened(op, d), dec) && Agree(t.s.main, Step(t, op).s.main, dec)
  {
    if op.Declare? {
      assert [op][1..] == [];
      if !t.hung { DeclareKeeps(t, op.names, base, d, dec); }
    } else if op.Call? || op.Return? {
    } else {
      TopKeeps(t, op, base, d, dec);
    }
  }

  lemma TopKeeps(t: Table, op: Op, base: seq<map<seq<byte>, Var>>, d: nat, dec: set<seq<byte>>)
    requires Above(t, base, d, dec) && t.settled && (op.Assign? || op.Delete? || op.Secure?)
    ensures Above(Step(t, op), base, d, dec) && Agree(t.s.main, Step(t, op).s.main, dec)
  {
    var s, s' := t.s, Step(t, op).s;
    if op.Assign? {
      assert op.name in Put(s.main, op.name, op.value, 0, op.inc);
    } else if op.Delete? && op.name in s.main {
      assert op.name in Gone(s.main, op.name);
    }
    if !t.hung {
      TopScopes(t, op);
      forall k, m | 0 <= k <= d && m in s'.locals[k] && s'.locals[k][m].scope == GLOBAL ensures m in dec {
        if k > 0 { assert s'.locals[k] == s'.locals[1..][k - 1] == s.locals[1..][k - 1] == s.locals[k]; }
      }
      assert s'.locals[d + 1..] == s'.locals[1..][d..];
    }
  }

  /** The operations that change the current frame make no stubs in it. */
  lemma TopScopes(t: Table, op: Op)
    requires t.settled && !t.hung && t.s.locals != [] && (op.Assign? || op.Delete? || op.Secure?)
    ensures var s, s' := t.s, Step(t, op).s;
      && |s'.locals| == |s.locals| && s'.locals[1..] == s.locals[1..]
      && forall m :: m in s'.locals[0] && s'.locals[0][m].scope == GLOBAL ==>
        m in s.locals[0] && s.locals[0][m].scope == GLOBAL
  {
  }

  lemma DeclareKeeps(t: Table, names: seq<seq<byte>>, base: seq<map<seq<byte>, Var>>, d: nat, dec: set<seq<byte>>)
    requires Above(t, base, d, dec) && t.settled && !t.hung && forall n :: n in names ==> n in dec
    ensures Above(DeclareIn(t, names), base, d, dec) && DeclareIn(t, names).s.main == t.s.main
  {
    var s, s' := t.s, DeclareIn(t, names).s;
    DeclaredExactly(t, names, []);
    forall k, n | 0 <= k <= d && n in s'.locals[k] && s'.locals[k][n].scope == GLOBAL ensures n in dec {
      DeclaredExactly(t, names, n);
      if k > 0 { assert s'.locals[k] == s'.locals[1..][k - 1] == s.locals[1..][k - 1] == s.locals[k]; }
    }
    assert s'.locals[d + 1..] == s'.locals[1..][d..] == s.locals[1..][d..] == base;
  }

  lemma {:induction false} BodyKeeps(t: Table, ops: seq<Op>, base: seq<map<seq<byte>, Var>>, d: nat,
          dec: set<seq<byte>>)
    requires Above(t, base, d, dec) && Declared(ops) <= dec && Within(ops, d) && NeverStrays(t, ops)
    ensures Above(Run(t, ops), base, Depth(ops, d), dec) && Agree(t.s.main, Run(t, ops).s.main, dec)
    ensures Run(t, ops).settled
    decreases |ops|
  {
    hide Step, Above, Agree;
    if ops == [] {
      AgreeSame(t.s.main, dec);
    } else {
      assert Declared([ops[0]]) <= Declared(ops) by { assert [ops[0]][0] == ops[0] && [ops[0]][1..] == []; }
      StepKeeps(t, ops[0], base, d, dec);
      var t1 := Step(t, ops[0]);
      BodyKeeps(t1, ops[1..], base, Opened(ops[0], d), dec);
      AgreeTrans(t.s.main, t1.s.main, Run(t1, ops[1..]).s.main, dec);
    }
  }

  lemma AgreeSame(m: map<seq<byte>, Var>, dec: set<seq<byte>>)
    ensures Agree(m, m, dec)
  {
  }

  lemma AgreeTrans(m: map<seq<byte>, Var>, m': map<seq<byte>, Var>, m'': map<seq<byte>, Var>, dec: set<seq<byte>>)
    requires Agree(m, m', dec) && Agree(m', m'', dec)
    ensures Agree(m, m'', dec)
  {
  }

  /** The frames of the caller lie below d + 1 others. */
  ghost predicate Below(t: Table, base: seq<map<seq<byte>, Var>>, d: nat) {
    t.hung || (|t.s.locals| == d + 1 + |base| && t.s.locals[d + 1..] == base)
  }

  lemma StepBelow(t: Table, op: Op, base: seq<map<seq<byte>, Var>>, d: nat)
    requires Below(t, base, d) && (op.Return? ==> d > 0)
    ensures Below(Step(t, op), base, Opened(op, d))
  {
    if t.hung { return; }
    var s, s' := t.s, Step(t, op).s;
    match op
    case Call => assert s'.locals == [map[]] + s.locals && s'.locals[d + 2..] == s.locals[d + 1..];
    case Return => assert s'.locals == s.locals[1..] && s'.locals[d..] == s.locals[d + 1..];
    case _ =>
      TopBelow(t, op);
      assert s'.locals[d + 1..] == s'.locals[1..][d..] && s.locals[d + 1..] == s.locals[1..][d..];
  }

  /** The operations within a function touch its own frame only. */
  lemma TopBelow(t: Table, op: Op)
    requires !t.hung && t.s.locals != [] && !op.Call? && !op.Return?
    ensures var s, s' := t.s, Step(t, op).s; |s'.locals| == |s.locals| && s'.locals[1..] == s.locals[1..]
  {
    if op.Declare? {
      if t.settled { DeclaredExactly(t, op.names, []); } else { DeclaredStray(t, op.names, []); }
    } else if t.settled {
      TopScopes(t, op);
    }
  }

  lemma {:induction false} BodyBelow(t: Table, ops: seq<Op>, base: seq<map<seq<byte>, Var>>, d: nat)
    requires Below(t, base, d) && Within(ops, d)
    ensures Below(Run(t, ops), base, Depth(ops, d))
    decreases |ops|
  {
    hide Step, Below;
    if ops != [] {
      StepBelow(t, ops[0], base, d);
      BodyBelow(Step(t, ops[0]), ops[1..], base, Opened(ops[0], d));
    }
  }

  /** A call leaves the frames of the caller alone.  If no function strays in it, it changes no variable
      of the main program but those that it declares global. */
  lemma CallKeeps(t: Table, body: seq<Op>)
    requires Nested(body)
    ensures var t' := Step(Run(Step(t, Call), body), Return);
      && (t'.hung || t'.s.locals == t.s.locals)
      && (NeverStrays(Step(t, Call), body) ==>
            Agree(t.s.main, t'.s.main, Declared(body)) && (t'.hung || (t'.settled <==> HasTree(t.s))))
  {
    hide Agree, NeverStrays, Nested, Declared;
    var t1 := Step(t, Call);
    assert !t.hung ==> t1.s.locals[1..] == t.s.locals;
    NestedIs(body);
    BodyBelow(t1, body, t.s.locals, 0);
    if NeverStrays(t1, body) {
      BodyKeeps(t1, body, t.s.locals, 0, Declared(body));
      AgreeEmpty(t.s.main, Run(t1, body).s.main, Declared(body));
    }
  }

  /** Whatever is called, a function that has variables reads its own ones as before. */
  lemma OwnKept(t: Table, body: seq<Op>, n: seq<byte>)
    requires Nested(body) && t.settled && t.s.locals != [] && t.s.locals[0] != map[] && !IsStub(t.s, n)
    ensures var t' := Step(Run(Step(t, Call), body), Return);
      t'.hung || (t'.settled && Read(t', n) == Read(t, n))
  {
    hide NeverStrays, Nested, Declared, Run;
    CallKeeps(t, body);
  }

  lemma NestedIs(ops: seq<Op>)
    ensures Nested(ops) <==> Within(ops, 0) && Depth(ops, 0) == 0
  {
    hide Within, Depth;
  }

  lemma AgreeEmpty(m: map<seq<byte>, Var>, m': map<seq<byte>, Var>, dec: set<seq<byte>>)
    requires Agree(m, m', dec)
    ensures m == map[] <==> m' == map[]
  {
  }

  /** Nothing hangs as long as the main program has no stubs. */
  lemma {:induction false} NoStubsReturn(t: Table, ops: seq<Op>)
    requires !t.hung && NeverStrays(t, ops) && NoMainStubs(t)
    ensures !Run(t, ops).hung && NoMainStubs(Run(t, ops))
    decreases |ops|
  {
    hide Step, NoMainStubs;
    if ops != [] {
      StepNoStubs(t, ops[0]);
      NoStubsReturn(Step(t, ops[0]), ops[1..]);
    }
  }

  ghost predicate NoMainStubs(t: Table) {
    forall n :: !IsMainStub(t, n)
  }

  lemma StepNoStubs(t: Table, op: Op)
    requires !t.hung && t.settled && NoMainStubs(t)
    ensures !Step(t, op).hung && NoMainStubs(Step(t, op))
  {
    if op.Declare? && t.s.locals != [] { DeclaredExactly(t, op.names, []); }
    if op.Assign? { assert !IsMainStub(t, op.name); }
    forall n ensures !IsMainStub(Step(t, op), n) { assert !IsMainStub(t, n); }
  }

  // ----- exactly -----

  /** Whatever the body assigns to next, of the main program's variables only declared ones change. */
  ghost predicate KeepsNext(t: Table, ops: seq<Op>, n: seq<byte>, v: Control.Value) {
    Agree(t.s.main, Run(Step(t, Call), ops + [Assign(n, v, 0)]).s.main, Declared(ops))
  }

  /** And that at every moment of the body. */
  ghost predicate OnlyDeclared(t: Table, body: seq<Op>) {
    forall k, n, v :: 0 <= k <= |body| && IsName(n) ==> KeepsNext(t, body[..k], n, v)
  }

  /** Only declared variables of the main program can change exactly when no function strays. */
  lemma ExactlyDeclared(t: Table, body: seq<Op>)
    requires !t.hung && Within(body, 0)
    ensures NeverStrays(Step(t, Call), body) <==> OnlyDeclared(t, body)
  {
    hide NeverStrays, Run, Agree, Within, Declared, KeepsNext;
    var t1 := Step(t, Call);
    if NeverStrays(t1, body) {
      forall k, n, v | 0 <= k <= |body| && IsName(n) ensures KeepsNext(t, body[..k], n, v) {
        FirstOps(t1, body, 0, k);
        NextKept(t, body[..k], n, v);
      }
    } else {
      var k := FirstStray(t1, body);
      var u := Run(t1, body[..k]);
      var n := FreshName(Declared(body[..k]) + t.s.main.Keys + u.s.main.Keys);
      var v := Control.Value(Control.LNUMBER, 0, 0.0, "");
      RunSnoc(t1, body[..k], Assign(n, v, 0));
      NewVariable(t, body[..k], u, n, v);
    }
  }

  lemma NextKept(t: Table, ops: seq<Op>, n: seq<byte>, v: Control.Value)
    requires !t.hung && Within(ops, 0) && NeverStrays(Step(t, Call), ops)
    ensures KeepsNext(t, ops, n, v)
  {
    hide NeverStrays, Agree, Within, Declared, Run, Depth;
    var t1, dec := Step(t, Call), Declared(ops);
    assert t1.s.locals[1..] == t.s.locals;
    BodyKeeps(t1, ops, t.s.locals, 0, dec);
    RunSnoc(t1, ops, Assign(n, v, 0));
    AssignsNothing(n, v);
    StepKeeps(Run(t1, ops), Assign(n, v, 0), t.s.locals, Depth(ops, 0), dec);
    AgreeTrans(t.s.main, Run(t1, ops).s.main, Run(t1, ops + [Assign(n, v, 0)]).s.main, dec);
  }

  lemma AssignsNothing(n: seq<byte>, v: Control.Value)
    ensures Declared([Assign(n, v, 0)]) == {}
  {
  }

  /** What holds of operations holds of the first k of them. */
  lemma {:induction false} FirstOps(t: Table, ops: seq<Op>, d: nat, k: nat)
    requires k <= |ops| && Within(ops, d) && NeverStrays(t, ops)
    ensures Within(ops[..k], d) && NeverStrays(t, ops[..k])
    decreases k
  {
    hide Step;
    if k > 0 {
      assert ops[..k][1..] == ops[1..][..k - 1];
      FirstOps(Step(t, ops[0]), ops[1..], Opened(ops[0], d), k - 1);
    }
  }

  /** The first moment at which a function has come back to the variables of the main program. */
  lemma {:induction false} FirstStray(t: Table, ops: seq<Op>) returns (k: nat)
    requires t.settled && !NeverStrays(t, ops)
    ensures k <= |ops| && !Run(t, ops[..k]).settled && !Run(t, ops[..k]).hung
    decreases |ops|
  {
    var t1 := Step(t, ops[0]);
    StraysBy(t, ops[0]);
    hide Step;
    if t1.settled {
      var j := FirstStray(t1, ops[1..]);
      k := j + 1;
      assert ops[..k][1..] == ops[1..][..j];
    } else {
      k := 1;
      assert ops[..1][1..] == [];
    }
  }

  lemma StraysBy(t: Table, op: Op)
    requires t.settled
    ensures Step(t, op).settled || !Step(t, op).hung
  {
    if op.Declare? && t.s.locals != [] { DeclaredExactly(t, op.names, []); }
  }

  /** A variable of the main program comes into being. */
  lemma NewVariable(t: Table, ops: seq<Op>, u: Table, n: seq<byte>, v: Control.Value)
    requires !u.settled && !u.hung && n !in Declared(ops) && n !in t.s.main && n !in u.s.main
    requires Run(Step(t, Call), ops + [Assign(n, v, 0)]) == Step(u, Assign(n, v, 0))
    ensures !KeepsNext(t, ops, n, v)
  {
    hide Run, Declared;
  }

  /** There is always another name. */
  lemma FreshName(s: set<seq<byte>>) returns (n: seq<byte>)
    ensures IsName(n) && n !in s
  {
    var l := Longest(s);
    n := seq(l + 1, _ => 97);
  }

  lemma {:induction false} Longest(s: set<seq<byte>>) returns (l: nat)
    ensures forall x :: x in s ==> |x| <= l
    decreases |s|
  {
    if s == {} {
      l := 0;
    } else {
      var x :| x in s;
      l := Longest(s - {x});
      if l < |x| { l := |x|; }
    }
  }

  /** What the caller reads afterwards under a name that the function has not declared global, if no
      function strays in the call.  The exception is a caller that is a function without variables: it
      comes back to those of the main program. */
  lemma CallerReads(t: Table, body: seq<Op>, n: seq<byte>)
    requires Proper(t) && Nested(body) && NeverStrays(Step(t, Call), body) && n !in Declared(body)
    ensures var t' := Step(Run(Step(t, Call), body), Return);
      t'.hung || (Read(t', n) == Read(t, n) <==> !(t.settled && !HasTree(t.s) && Look(t.s.main, n).Something?))
  {
    hide NeverStrays, Nested, Declared, Run;
    CallKeeps(t, body);
    var t' := Step(Run(Step(t, Call), body), Return);
    assert Look(t'.s.main, n) == Look(t.s.main, n);
  }

  /** A function that has declared a name global assigns to the variable of the main program, unless the
      main program has no variables at all: then the assignment is lost. */
  lemma GlobalReaches(t: Table, n: seq<byte>, v: Control.Value, inc: int)
    requires inc != HIDDEN && !t.hung
    ensures var t' := Run(t, [Call, Declare([n]), Assign(n, v, inc), Return]);
      if IsMainStub(t, n) then t'.hung
      else
        && !t'.hung && t'.s.locals == t.s.locals
        && Look(t'.s.main, n) == if t.s.main == map[] then Nothing else Something(v)
  {
    var t1 := Step(t, Call);
    var t2 := Step(t1, Declare([n]));
    var t3 := Step(t2, Assign(n, v, inc));
    DeclaredExactly(t1, [n], n);
    RunFour(t, Call, Declare([n]), Assign(n, v, inc), Return);
    assert t1.s.locals[1..] == t.s.locals;
    hide Run;
  }

  lemma RunFour(t: Table, a: Op, b: Op, c: Op, d: Op)
    ensures Run(t, [a, b, c, d]) == Step(Step(Step(Step(t, a), b), c), d)
  {
    hide Step;
    assert [a, b, c, d][1..] == [b, c, d] && [b, c, d][1..] == [c, d] && [c, d][1..] == [d] && [d][1..] == [];
    var t1 := Step(t, a);
    assert Run(t, [a, b, c, d]) == Run(t1, [b, c, d]);
    var t2 := Step(t1, b);
    assert Run(t1, [b, c, d]) == Run(t2, [c, d]);
    var t3 := Step(t2, c);
    assert Run(t2, [c, d]) == Run(t3, [d]);
    assert Run(Step(t3, d), []) == Step(t3, d);
  }

  /** A function without variables that has called another one assigns to variables of the main program
      that it has not declared global. */
  lemma StrayWrites(t: Table, n: seq<byte>, v: Control.Value)
    requires t.s.main != map[] && !t.hung && !IsMainStub(t, n)
    ensures var ops := [Call, Call, Return, Assign(n, v, 0)];
      Run(t, ops).s == State(Put(t.s.main, n, v, 0, 0), [map[]] + t.s.locals) && Declared(ops) == {}
  {
    RunFour(t, Call, Call, Return, Assign(n, v, 0));
    NothingDeclared(Call, Call, Return, Assign(n, v, 0));
    hide Run, Declared, Put;
    assert ([map[]] + ([map[]] + t.s.locals))[1..] == [map[]] + t.s.locals;
  }

  lemma NothingDeclared(a: Op, b: Op, c: Op, d: Op)
    requires !a.Declare? && !b.Declare? && !c.Declare? && !d.Declare?
    ensures Declared([a, b, c, d]) == {}
  {
    assert [a, b, c, d][1..] == [b, c, d] && [b, c, d][1..] == [c, d] && [c, d][1..] == [d] && [d][1..] == [];
    assert Declared([d]) == {};
    assert Declared([c, d]) == {};
    assert Declared([b, c, d]) == {};
  }
}
