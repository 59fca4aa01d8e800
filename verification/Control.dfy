/** if/elseif/else/endif and switch/case/break/default/endswitch, as the flat condition, match and switch
    stacks of src/cond.c and src/switch.c carry them out under the guards of src/parse.raw, and what
    the nested statements mean. */
module Control {

  // ----- values of switch and case -----

  datatype Kind = LNUMBER | DNUMBER | STRING

  datatype Value = Value(kind: Kind, intval: int, douval: real, strval: string)

  /** The comparison that Case makes goes by the type of the label alone. */
  predicate Equals(lab: Value, v: Value) {
    match lab.kind
    case LNUMBER => lab.intval == v.intval
    case DNUMBER => lab.douval == v.douval
    case STRING => lab.strval == v.strval
  }

  // ----- the flat form -----

  /** One action of the parser.  Conditions and values are evaluated in the store of that moment. */
  datatype Token<!S> =
    | Do(act: S -> S)
    | If(cond: S -> int)
    | ElseIf(cond: S -> int)
    | Else
    | EndIf
    | Switch(value: S -> Value)
    | Case(value: S -> Value)
    | Default
    | Break
    | EndSwitch

  datatype Cond = Cond(state: int, active: int)

  datatype Selector = Selector(value: Value, matched: int)

  /** The tops of the stacks come first.  `failed` tells that Error has been called. */
  datatype Machine<S> = Machine(store: S, conds: seq<Cond>, matches: seq<int>, selectors: seq<Selector>, failed: bool)

  function State<S>(m: Machine<S>): int {
    if m.conds == [] then 1 else m.conds[0].state
  }

  /** What GetCurrentActive returns; GetCurrentState gives -1 instead when the stack is empty. */
  function Active<S>(m: Machine<S>): int {
    if m.conds == [] then 0 else m.conds[0].active
  }

  function CondPush<S>(m: Machine<S>, state: int, active: int): Machine<S> {
    m.(conds := [Cond(state, active)] + m.conds)
  }

  function CondPop<S>(m: Machine<S>): Machine<S> {
    if m.conds == [] then m else m.(conds := m.conds[1..])
  }

  function MatchPush<S>(m: Machine<S>, val: int): Machine<S> {
    m.(matches := [val] + m.matches)
  }

  /** MatchPop answers 1, and reports an error, when the stack is empty. */
  function MatchTop<S>(m: Machine<S>): int {
    if m.matches == [] then 1 else m.matches[0]
  }

  function MatchPop<S>(m: Machine<S>): Machine<S> {
    if m.matches == [] then m.(failed := true) else m.(matches := m.matches[1..])
  }

  function Fail<S>(m: Machine<S>): Machine<S> {
    m.(failed := true)
  }

  function IfStep<S>(m: Machine<S>, c: S -> int): Machine<S> {
    if State(m) == 0 then MatchPush(CondPush(m, 0, 0), 0)
    else MatchPush(CondPush(m, c(m.store), 1), c(m.store))
  }

  function ElseIfStep<S>(m: Machine<S>, c: S -> int): Machine<S> {
    if m.conds == [] || Active(m) < 0 then Fail(m)
    else if Active(m) == 0 then m
    else
      var k, n := MatchTop(m), CondPop(MatchPop(m));
      if k == 0 then MatchPush(CondPush(n, c(m.store), 1), c(m.store)) else CondPush(MatchPush(n, k), 0, 1)
  }

  function ElseStep<S>(m: Machine<S>): Machine<S> {
    if m.conds == [] || Active(m) < 0 then Fail(m)
    else if Active(m) == 0 then m
    else
      var k, n := MatchTop(m), MatchPop(CondPop(m));
      MatchPush(CondPush(n, if k != 0 then 0 else 1, -1), if k != 0 then 0 else 1)
  }

  function SwitchStep<S>(m: Machine<S>, v: S -> Value): Machine<S> {
    if State(m) == 0 && Active(m) != -2 && Active(m) != -3 then m
    else if State(m) != 0 then CondPush(m.(selectors := [Selector(v(m.store), 0)] + m.selectors), 1, 1)
    else CondPush(m, 0, -3)
  }

  function CaseStep<S>(m: Machine<S>, v: S -> Value): Machine<S> {
    if Active(m) != -2 && State(m) == 0 then m
    else if m.selectors == [] then Fail(m)
    else if State(m) != 0 && Active(m) == -2 then m
    else CondPush(m, if Equals(v(m.store), m.selectors[0].value) then 1 else 0, -2)
  }

  /** Default reads the topmost selector without asking whether there is one. */
  function DefaultStep<S>(m: Machine<S>): Machine<S> {
    if Active(m) != -2 && State(m) == 0 then m
    else if m.selectors == [] then Fail(m)
    else CondPush(m, if m.selectors[0].matched == 0 then 1 else 0, -2)
  }

  function BreakStep<S>(m: Machine<S>): Machine<S> {
    if Active(m) != -2 && State(m) == 0 then m
    else if Active(m) > -2 || m.selectors == [] then Fail(m)
    else
      var s := m.selectors[0];
      CondPop(m).(selectors := [if s.matched == 0 then s.(matched := State(m)) else s] + m.selectors[1..])
  }

  function EndSwitchStep<S>(m: Machine<S>): Machine<S> {
    if State(m) == 0 && Active(m) != -2 && Active(m) != -3 then m
    else if m.conds != [] && Active(m) == -3 then CondPop(m)
    else CondPop(m.(selectors := if m.selectors == [] then [] else m.selectors[1..]))
  }

  function Step<S>(m: Machine<S>, tok: Token<S>): Machine<S> {
    match tok
    case Do(act) => if State(m) != 0 then m.(store := act(m.store)) else m
    case If(c) => IfStep(m, c)
    case ElseIf(c) => ElseIfStep(m, c)
    case Else => ElseStep(m)
    case EndIf => MatchPop(CondPop(m))
    case Switch(v) => SwitchStep(m, v)
    case Case(v) => CaseStep(m, v)
    case Default => DefaultStep(m)
    case Break => BreakStep(m)
    case EndSwitch => EndSwitchStep(m)
  }

  function Run<S>(m: Machine<S>, toks: seq<Token<S>>): Machine<S>
    decreases |toks|
  {
    if toks == [] then m else Run(Step(m, toks[0]), toks[1..])
  }

  // ----- the nested form -----

  datatype Prog<!S> =
    | Skip
    | Act(act: S -> S)
    | Then(first: Prog<S>, second: Prog<S>)
    | When(cond: S -> int, body: Prog<S>, rest: Tail<S>)
    | Select(value: S -> Value, arms: Arms<S>)

  datatype Tail<!S> = End | Otherwise(body: Prog<S>) | OrWhen(cond: S -> int, body: Prog<S>, rest: Tail<S>)

  /** `breaks` tells that an arm ends in a break.  A default arm is the last. */
  datatype Arms<!S> =
    | NoMore
    | Last(body: Prog<S>, breaks: bool)
    | Arm(test: S -> Value, body: Prog<S>, breaks: bool, rest: Arms<S>)

  function Exec<S>(p: Prog<S>, store: S): S {
    match p
    case Skip => store
    case Act(act) => act(store)
    case Then(p, q) => Exec(q, Exec(p, store))
    case When(c, body, rest) => if c(store) != 0 then Exec(body, store) else ExecTail(rest, store)
    case Select(v, arms) => ExecArms(arms, v(store), false, store)
  }

  function ExecTail<S>(t: Tail<S>, store: S): S {
    match t
    case End => store
    case Otherwise(body) => Exec(body, store)
    case OrWhen(c, body, rest) => if c(store) != 0 then Exec(body, store) else ExecTail(rest, store)
  }

  /** Every arm whose label equals the value is carried out, and the default arm if there was none. */
  function ExecArms<S>(arms: Arms<S>, v: Value, matched: bool, store: S): S {
    match arms
    case NoMore => store
    case Last(body, _) => if matched then store else Exec(body, store)
    case Arm(test, body, _, rest) =>
      if Equals(test(store), v) then ExecArms(rest, v, true, Exec(body, store)) else ExecArms(rest, v, matched, store)
  }

  function Code<S>(p: Prog<S>): seq<Token<S>> {
    match p
    case Skip => []
    case Act(act) => [Do(act)]
    case Then(p, q) => Code(p) + Code(q)
    case When(c, body, rest) => [If(c)] + Code(body) + TailCode(rest)
    case Select(v, arms) => [Switch(v)] + ArmsCode(arms)
  }

  function TailCode<S>(t: Tail<S>): seq<Token<S>> {
    match t
    case End => [EndIf]
    case Otherwise(body) => [Else] + Code(body) + [EndIf]
    case OrWhen(c, body, rest) => [ElseIf(c)] + Code(body) + TailCode(rest)
  }

  function BreakCode<S>(breaks: bool): seq<Token<S>> {
    if breaks then [Break] else []
  }

  function ArmsCode<S>(arms: Arms<S>): seq<Token<S>> {
    match arms
    case NoMore => [EndSwitch]
    case Last(body, breaks) => [Default] + Code(body) + (BreakCode(breaks) + [EndSwitch])
    case Arm(test, body, breaks, rest) => [Case(test)] + Code(body) + (BreakCode(breaks) + ArmsCode(rest))
  }

  // ----- running code piece by piece -----

  lemma {:induction false} RunSplit<S>(m: Machine<S>, a: seq<Token<S>>, b: seq<Token<S>>)
    ensures Run(m, a + b) == Run(Run(m, a), b)
    decreases |a|
  {
    if a == [] {
      assert a + b == b;
    } else {
      assert (a + b)[1..] == a[1..] + b;
      RunSplit(Step(m, a[0]), a[1..], b);
    }
    hide Step;
  }

  lemma RunOne<S>(m: Machine<S>, tok: Token<S>)
    ensures Run(m, [tok]) == Step(m, tok)
  {
    hide Step;
    assert Run(Step(m, tok), []) == Step(m, tok);
  }

  /** An operator, a body, and what follows. */
  lemma RunParts<S>(m: Machine<S>, tok: Token<S>, body: seq<Token<S>>, rest: seq<Token<S>>)
    ensures Run(m, [tok] + body + rest) == Run(Run(Step(m, tok), body), rest)
  {
    hide *;
    RunSplit(m, [tok] + body, rest);
    RunSplit(m, [tok], body);
    RunOne(m, tok);
  }

  // ----- dead code -----

  /** The state is false: in a branch not taken (active 1, 0 or -1), in an arm not taken (-2), or in a
      switch inside one of those (-3). */
  predicate Dead<S>(m: Machine<S>) {
    m.conds != [] && m.conds[0].state == 0 && -3 <= m.conds[0].active <= 1
  }

  lemma PopPushed<S>(m: Machine<S>, state: int, active: int, k: int)
    ensures MatchPop(CondPop(MatchPush(CondPush(m, state, active), k))) == m
    ensures CondPop(CondPush(m, state, active)) == m
  {
    assert ([Cond(state, active)] + m.conds)[1..] == m.conds && ([k] + m.matches)[1..] == m.matches;
  }

  /** Dead code does nothing at all. */
  lemma {:induction false} DeadProg<S>(p: Prog<S>, m: Machine<S>)
    requires Dead(m)
    ensures Run(m, Code(p)) == m
  {
    match p
    case Skip =>
    case Act(act) => RunOne(m, Do(act));
    case Then(p, q) =>
      RunSplit(m, Code(p), Code(q));
      DeadProg(p, m);
      DeadProg(q, m);
    case When(c, body, rest) =>
      var n := MatchPush(CondPush(m, 0, 0), 0);
      RunParts(m, If(c), Code(body), TailCode(rest));
      DeadProg(body, n);
      DeadTail(rest, m);
    case Select(v, arms) =>
      RunSplit(m, [Switch(v)], ArmsCode(arms));
      RunOne(m, Switch(v));
      DeadArms(arms, m, Step(m, Switch(v)));
  }

  lemma {:induction false} DeadTail<S>(t: Tail<S>, m: Machine<S>)
    requires Dead(m)
    ensures Run(MatchPush(CondPush(m, 0, 0), 0), TailCode(t)) == m
  {
    var n := MatchPush(CondPush(m, 0, 0), 0);
    PopPushed(m, 0, 0, 0);
    match t
    case End => RunOne(n, EndIf);
    case Otherwise(body) =>
      RunParts(n, Else, Code(body), [EndIf]);
      DeadProg(body, n);
      RunOne(n, EndIf);
    case OrWhen(c, body, rest) =>
      RunParts(n, ElseIf(c), Code(body), TailCode(rest));
      DeadProg(body, n);
      DeadTail(rest, m);
  }

  /** In a dead switch, n is m itself or m with the mark -3 pushed. */
  lemma {:induction false} DeadArms<S>(arms: Arms<S>, m: Machine<S>, n: Machine<S>)
    requires Dead(m)
    requires if m.conds[0].active <= -2 then n == CondPush(m, 0, -3) else n == m
    ensures Run(n, ArmsCode(arms)) == m
  {
    hide Exec, Code, Breaks;
    PopPushed(m, 0, -3, 0);
    match arms
    case NoMore => RunOne(n, EndSwitch);
    case Last(body, breaks) =>
      RunParts(n, Default, Code(body), BreakCode(breaks) + [EndSwitch]);
      DeadProg(body, n);
      RunSplit(n, BreakCode(breaks), [EndSwitch]);
      RunOne(n, Break);
      RunOne(n, EndSwitch);
    case Arm(test, body, breaks, rest) =>
      RunParts(n, Case(test), Code(body), BreakCode(breaks) + ArmsCode(rest));
      DeadProg(body, n);
      RunSplit(n, BreakCode(breaks), ArmsCode(rest));
      RunOne(n, Break);
      DeadArms(rest, m, n);
  }

  // ----- live code -----

  /** Every arm of every switch in p ends in a break. */
  predicate Breaks<S>(p: Prog<S>) {
    match p
    case Skip => true
    case Act(_) => true
    case Then(p, q) => Breaks(p) && Breaks(q)
    case When(_, body, rest) => Breaks(body) && TailBreaks(rest)
    case Select(_, arms) => ArmsBreak(arms)
  }

  predicate TailBreaks<S>(t: Tail<S>) {
    match t
    case End => true
    case Otherwise(body) => Breaks(body)
    case OrWhen(_, body, rest) => Breaks(body) && TailBreaks(rest)
  }

  predicate ArmsBreak<S>(arms: Arms<S>) {
    match arms
    case NoMore => true
    case Last(body, breaks) => breaks && Breaks(body)
    case Arm(_, body, breaks, rest) => breaks && Breaks(body) && ArmsBreak(rest)
  }

  /** The flat form of a nested statement changes the store as the statement does, and leaves the
      stacks as they were. */
  lemma {:induction false} LiveProg<S>(p: Prog<S>, m: Machine<S>)
    requires State(m) != 0 && Breaks(p)
    ensures Run(m, Code(p)) == m.(store := Exec(p, m.store))
  {
    match p
    case Skip =>
    case Act(act) => RunOne(m, Do(act));
    case Then(p, q) =>
      RunSplit(m, Code(p), Code(q));
      LiveProg(p, m);
      LiveProg(q, m.(store := Exec(p, m.store)));
    case When(c, body, rest) =>
      var k := c(m.store);
      var n := MatchPush(CondPush(m, k, 1), k);
      RunParts(m, If(c), Code(body), TailCode(rest));
      if k != 0 { LiveProg(body, n); } else { DeadProg(body, n); }
      LiveTail(rest, m, k, k, if k != 0 then Exec(body, m.store) else m.store);
    case Select(v, arms) =>
      RunSplit(m, [Switch(v)], ArmsCode(arms));
      RunOne(m, Switch(v));
      LiveArms(arms, m, v(m.store), 0, m.store);
  }

  /** Inside an if: k tells whether some branch has been taken, s whether the present one is. */
  function Inside<S>(m: Machine<S>, s: int, active: int, k: int, store: S): Machine<S> {
    MatchPush(CondPush(m.(store := store), s, active), k)
  }

  lemma {:induction false} LiveTail<S>(t: Tail<S>, m: Machine<S>, s: int, k: int, store: S)
    requires State(m) != 0 && TailBreaks(t)
    ensures Run(Inside(m, s, 1, k, store), TailCode(t)) == m.(store := if k != 0 then store else ExecTail(t, store))
  {
    var n := Inside(m, s, 1, k, store);
    match t
    case End =>
      RunOne(n, EndIf);
      PopPushed(m.(store := store), s, 1, k);
    case Otherwise(body) =>
      var x := if k != 0 then 0 else 1;
      var after := Inside(m, x, -1, x, store);
      ElseInside(m, s, k, store);
      RunParts(n, Else, Code(body), [EndIf]);
      var end := if k != 0 then store else Exec(body, store);
      if k != 0 { DeadProg(body, after); } else { LiveProg(body, after); }
      RunOne(Inside(m, x, -1, x, end), EndIf);
      PopPushed(m.(store := end), x, -1, x);
    case OrWhen(c, body, rest) =>
      ElseIfInside(m, s, k, store, c);
      RunParts(n, ElseIf(c), Code(body), TailCode(rest));
      if k != 0 {
        DeadProg(body, Inside(m, 0, 1, k, store));
        LiveTail(rest, m, 0, k, store);
      } else {
        var x := c(store);
        if x != 0 { LiveProg(body, Inside(m, x, 1, x, store)); } else { DeadProg(body, Inside(m, x, 1, x, store)); }
        LiveTail(rest, m, x, x, if x != 0 then Exec(body, store) else store);
      }
  }

  lemma ElseInside<S>(m: Machine<S>, s: int, k: int, store: S)
    ensures Step(Inside(m, s, 1, k, store), Else) ==
      Inside(m, if k != 0 then 0 else 1, -1, if k != 0 then 0 else 1, store)
  {
    var n := m.(store := store);
    assert ([Cond(s, 1)] + n.conds)[1..] == n.conds && ([k] + n.matches)[1..] == n.matches;
  }

  lemma ElseIfInside<S>(m: Machine<S>, s: int, k: int, store: S, c: S -> int)
    ensures Step(Inside(m, s, 1, k, store), ElseIf(c)) == if k != 0 then Inside(m, 0, 1, k, store)
      else Inside(m, c(store), 1, c(store), store)
  {
    var n := m.(store := store);
    assert ([Cond(s, 1)] + n.conds)[1..] == n.conds && ([k] + n.matches)[1..] == n.matches;
  }

  /** Between the arms of a live switch. */
  function Between<S>(m: Machine<S>, v: Value, matched: int, store: S): Machine<S> {
    CondPush(m.(store := store, selectors := [Selector(v, matched)] + m.selectors), 1, 1)
  }

  lemma {:induction false} LiveArms<S>(arms: Arms<S>, m: Machine<S>, v: Value, matched: int, store: S)
    requires ArmsBreak(arms)
    ensures Run(Between(m, v, matched, store), ArmsCode(arms)) == m.(store := ExecArms(arms, v, matched != 0, store))
  {
    hide Exec, Code, Breaks;
    var n := Between(m, v, matched, store);
    match arms
    case NoMore =>
      RunOne(n, EndSwitch);
      EndBetween(m, v, matched, store);
    case Last(body, breaks) =>
      RunParts(n, Default, Code(body), [Break] + [EndSwitch]);
      var x := if matched == 0 then 1 else 0;
      var end := if matched == 0 then Exec(body, store) else store;
      if matched == 0 { LiveProg(body, CondPush(n, x, -2)); } else { DeadProg(body, CondPush(n, x, -2)); }
      BreakBetween(m, v, matched, end, x);
      var after := Between(m, v, if matched == 0 then x else matched, end);
      RunSplit(CondPush(Between(m, v, matched, end), x, -2), [Break], [EndSwitch]);
      RunOne(CondPush(Between(m, v, matched, end), x, -2), Break);
      RunOne(after, EndSwitch);
      EndBetween(m, v, if matched == 0 then x else matched, end);
    case Arm(test, body, breaks, rest) =>
      RunParts(n, Case(test), Code(body), [Break] + ArmsCode(rest));
      var x := if Equals(test(store), v) then 1 else 0;
      var end := if x == 1 then Exec(body, store) else store;
      if x == 1 { LiveProg(body, CondPush(n, x, -2)); } else { DeadProg(body, CondPush(n, x, -2)); }
      BreakBetween(m, v, matched, end, x);
      RunSplit(CondPush(Between(m, v, matched, end), x, -2), [Break], ArmsCode(rest));
      RunOne(CondPush(Between(m, v, matched, end), x, -2), Break);
      LiveArms(rest, m, v, if matched == 0 then x else matched, end);
  }

  lemma BreakBetween<S>(m: Machine<S>, v: Value, matched: int, store: S, x: int)
    ensures Step(CondPush(Between(m, v, matched, store), x, -2), Break) ==
      Between(m, v, if matched == 0 then x else matched, store)
  {
    var n := Between(m, v, matched, store);
    assert ([Cond(x, -2)] + n.conds)[1..] == n.conds && ([Selector(v, matched)] + m.selectors)[1..] == m.selectors;
  }

  lemma EndBetween<S>(m: Machine<S>, v: Value, matched: int, store: S)
    ensures Step(Between(m, v, matched, store), EndSwitch) == m.(store := store)
  {
    assert ([Cond(1, 1)] + m.conds)[1..] == m.conds && ([Selector(v, matched)] + m.selectors)[1..] == m.selectors;
  }

  /** A program run from the start: its flat form does what it means, and all stacks end empty. */
  lemma FlatIsNested<S>(p: Prog<S>, store: S)
    requires Breaks(p)
    ensures Run(Machine(store, [], [], [], false), Code(p)) == Machine(Exec(p, store), [], [], [], false)
  {
    LiveProg(p, Machine(store, [], [], [], false));
  }

  // ----- the usual meaning of a switch: the first arm that fits -----

  function ExecFirst<S>(arms: Arms<S>, v: Value, store: S): S {
    match arms
    case NoMore => store
    case Last(body, _) => Exec(body, store)
    case Arm(test, body, _, rest) => if Equals(test(store), v) then Exec(body, store) else ExecFirst(rest, v, store)
  }

  /** No label of arms fits v, in a store that does not change meanwhile. */
  predicate NoneFits<S>(arms: Arms<S>, v: Value, store: S) {
    match arms
    case NoMore => true
    case Last(_, _) => true
    case Arm(test, _, _, rest) => !Equals(test(store), v) && NoneFits(rest, v, store)
  }

  /** At most one label fits: behind the first that does, none does in the store that its arm leaves. */
  predicate AtMostOneFits<S>(arms: Arms<S>, v: Value, store: S) {
    match arms
    case NoMore => true
    case Last(_, _) => true
    case Arm(test, body, _, rest) =>
      if Equals(test(store), v) then NoneFits(rest, v, Exec(body, store)) else AtMostOneFits(rest, v, store)
  }

  lemma {:induction false} NoneExecutes<S>(arms: Arms<S>, v: Value, store: S)
    requires NoneFits(arms, v, store)
    ensures ExecArms(arms, v, true, store) == store
  {
    if arms.Arm? { NoneExecutes(arms.rest, v, store); }
  }

  /** Case does not ask whether an arm has been taken already, so this needs labels of which at most
      one fits. */
  lemma {:induction false} SwitchIsFirst<S>(arms: Arms<S>, v: Value, store: S)
    requires AtMostOneFits(arms, v, store)
    ensures ExecArms(arms, v, false, store) == ExecFirst(arms, v, store)
  {
    if arms.Arm? {
      if Equals(arms.test(store), v) { NoneExecutes(arms.rest, v, Exec(arms.body, store)); }
      else { SwitchIsFirst(arms.rest, v, store); }
    }
  }

  /** The arms with these labels, which do not depend on the store, and these bodies. */
  function ArmsOf<S>(labels: seq<Value>, bodies: seq<Prog<S>>): Arms<S>
    requires |labels| == |bodies|
  {
    if labels == [] then NoMore
    else var lab := labels[0]; Arm((_: S) => lab, bodies[0], true, ArmsOf(labels[1..], bodies[1..]))
  }

  predicate AtMostOne(labels: seq<Value>, v: Value) {
    forall i, j :: 0 <= i < j < |labels| ==> !Equals(labels[i], v) || !Equals(labels[j], v)
  }

  /** The switch takes the first arm that fits, and no other. */
  ghost predicate TakesFirst(labels: seq<Value>, bodies: seq<Prog<seq<int>>>, v: Value, store: seq<int>) {
    |bodies| == |labels| ==>
      ExecArms(ArmsOf(labels, bodies), v, false, store) == ExecFirst(ArmsOf(labels, bodies), v, store)
  }

  /** Whatever the bodies do, the switch takes the first arm that fits exactly when at most one does. */
  lemma FirstExactly(labels: seq<Value>, v: Value)
    ensures (forall bodies, store :: TakesFirst(labels, bodies, v, store)) <==> AtMostOne(labels, v)
  {
    hide ExecArms, ExecFirst, ArmsOf, AtMostOne;
    if AtMostOne(labels, v) {
      forall bodies, store ensures TakesFirst(labels, bodies, v, store) {
        if |bodies| == |labels| {
          OneFits(labels, bodies, v, store);
          SwitchIsFirst(ArmsOf(labels, bodies), v, store);
        }
      }
    } else {
      var bodies := seq(|labels|, _ => MARK);
      assert TakesFirst(labels, bodies, v, []) ==> AtMostOne(labels, v) by { MarksCount(labels, bodies, v, false, []); }
    }
  }

  /** Leaves a mark in the store. */
  const MARK: Prog<seq<int>> := Act((s: seq<int>) => s + [1])

  function Fitting(labels: seq<Value>, v: Value): nat {
    if labels == [] then 0 else (if Equals(labels[0], v) then 1 else 0) + Fitting(labels[1..], v)
  }

  lemma {:induction false} OneFits<S>(labels: seq<Value>, bodies: seq<Prog<S>>, v: Value, store: S)
    requires |labels| == |bodies| && AtMostOne(labels, v)
    ensures AtMostOneFits(ArmsOf(labels, bodies), v, store)
    decreases |labels|
  {
    if labels != [] {
      forall i, j | 0 <= i < j < |labels[1..]| ensures !Equals(labels[1..][i], v) || !Equals(labels[1..][j], v) {
        assert labels[1..][i] == labels[i + 1] && labels[1..][j] == labels[j + 1];
      }
      OneFits(labels[1..], bodies[1..], v, store);
      if Equals(labels[0], v) { NoneFit(labels[1..], bodies[1..], v, Exec(bodies[0], store)); }
    }
  }

  lemma {:induction false} NoneFit<S>(labels: seq<Value>, bodies: seq<Prog<S>>, v: Value, store: S)
    requires |labels| == |bodies| && forall i :: 0 <= i < |labels| ==> !Equals(labels[i], v)
    ensures NoneFits(ArmsOf(labels, bodies), v, store)
    decreases |labels|
  {
    if labels != [] { NoneFit(labels[1..], bodies[1..], v, store); }
  }

  /** The flat switch carries out every arm that fits; to take the first means to carry out one at most. */
  lemma {:induction false} MarksCount(labels: seq<Value>, bodies: seq<Prog<seq<int>>>, v: Value, matched: bool,
          store: seq<int>)
    requires |labels| == |bodies| && forall i :: 0 <= i < |bodies| ==> bodies[i] == MARK
    ensures |ExecArms(ArmsOf(labels, bodies), v, matched, store)| == |store| + Fitting(labels, v)
    ensures |ExecFirst(ArmsOf(labels, bodies), v, store)| <= |store| + 1
    ensures AtMostOne(labels, v) <==> Fitting(labels, v) <= 1
    ensures Fitting(labels, v) == 0 <==> forall i :: 0 <= i < |labels| ==> !Equals(labels[i], v)
    decreases |labels|
  {
    if labels != [] {
      var fits := Equals(labels[0], v);
      MarksCount(labels[1..], bodies[1..], v, matched || fits, if fits then store + [1] else store);
      MarksCount(labels[1..], bodies[1..], v, matched, store);
      assert forall i :: 0 < i < |labels| ==> labels[i] == labels[1..][i - 1];
    }
  }

  /** With the label 1 twice, the flat switch on 1 carries out both arms. */
  lemma BothArms()
    ensures var one := Value(LNUMBER, 1, 0.0, "1");
      var p := Select((_: seq<int>) => one, ArmsOf([one, one], [MARK, MARK]));
      Run(Machine([], [], [], [], false), Code(p)) == Machine([1, 1], [], [], [], false)
  {
    var one := Value(LNUMBER, 1, 0.0, "1");
    var arms := ArmsOf([one, one], [MARK, MARK]);
    assert [one, one][1..] == [one] && [MARK, MARK][1..] == [MARK];
    assert ArmsOf([one], [MARK]).Arm? && ArmsOf([one], [MARK]).rest == NoMore;
    var p := Select((_: seq<int>) => one, arms);
    assert [] + [1] + [1] == [1, 1];
    FlatIsNested(p, []);
  }

  // ----- the statements on values that are written out -----

  /** Where Case compares, it pushes 1 exactly when the two values agree in the field that belongs to the
      type of the label, whatever the other fields are. */
  lemma CaseCompares<S>(m: Machine<S>, v: S -> Value)
    requires m.selectors != []
    requires m.conds == [] || (m.conds[0].state != 0) != (m.conds[0].active == -2)
    ensures var lab, top, r := v(m.store), m.selectors[0].value, Step(m, Case(v));
      && (lab.kind.STRING? ==> r.conds == [Cond(if lab.strval == top.strval then 1 else 0, -2)] + m.conds)
      && (lab.kind.LNUMBER? ==> r.conds == [Cond(if lab.intval == top.intval then 1 else 0, -2)] + m.conds)
      && (lab.kind.DNUMBER? ==> r.conds == [Cond(if lab.douval == top.douval then 1 else 0, -2)] + m.conds)
      && r.store == m.store && r.matches == m.matches && r.selectors == m.selectors && r.failed == m.failed
  {
  }

  /** The program that appends n to the store. */
  function Mark(n: int): Prog<seq<int>> {
    Act((s: seq<int>) => s + [n])
  }

  /** switch(v) { case lab: 1; break; case next: 2; break; default: 3; break; }, carried out flat. */
  function SwitchRun(v: Value, lab: Value, next: Value): Machine<seq<int>> {
    Run(Machine([], [], [], [], false),
      Code(Select((_: seq<int>) => v,
        Arm((_: seq<int>) => lab, Mark(1), true, Arm((_: seq<int>) => next, Mark(2), true, Last(Mark(3), true))))))
  }

  /** The arm of a string is carried out exactly when the two strings are equal, that of an integer
      exactly when the integers are, that of a float exactly when the floats are. */
  lemma SwitchCompares(v: Value, lab: Value, next: Value)
    requires next.kind.STRING? && next.strval != v.strval
    ensures lab.kind.STRING? ==>
      SwitchRun(v, lab, next) == Machine(if lab.strval == v.strval then [1] else [3], [], [], [], false)
    ensures lab.kind.LNUMBER? ==>
      SwitchRun(v, lab, next) == Machine(if lab.intval == v.intval then [1] else [3], [], [], [], false)
    ensures lab.kind.DNUMBER? ==>
      SwitchRun(v, lab, next) == Machine(if lab.douval == v.douval then [1] else [3], [], [], [], false)
  {
    var last: Arms<seq<int>> := Last(Mark(3), true);
    var rest: Arms<seq<int>> := Arm((_: seq<int>) => next, Mark(2), true, last);
    var arms: Arms<seq<int>> := Arm((_: seq<int>) => lab, Mark(1), true, rest);
    assert ArmsBreak(last) && ArmsBreak(rest) && ArmsBreak(arms);
    assert [] + [1] == [1] && [] + [3] == [3];
    assert forall s :: ExecArms(last, v, false, s) == s + [3] && ExecArms(last, v, true, s) == s;
    assert forall s, b :: ExecArms(rest, v, b, s) == ExecArms(last, v, b, s);
    FlatIsNested(Select((_: seq<int>) => v, arms), []);
  }

  /** if (a) 1; elseif (b) 2; else 3; endif, carried out flat: the first condition that is not zero
      decides. */
  lemma IfDecides(a: int, b: int)
    ensures Run(Machine([], [], [], [], false),
        Code(When((_: seq<int>) => a, Mark(1), OrWhen((_: seq<int>) => b, Mark(2), Otherwise(Mark(3))))))
      == Machine(if a != 0 then [1] else if b != 0 then [2] else [3], [], [], [], false)
  {
    var last: Tail<seq<int>> := Otherwise(Mark(3));
    var rest: Tail<seq<int>> := OrWhen((_: seq<int>) => b, Mark(2), last);
    assert TailBreaks(last) && TailBreaks(rest);
    assert [] + [1] == [1] && [] + [2] == [2] && [] + [3] == [3];
    assert ExecTail(last, []) == [3] && ExecTail(rest, []) == if b != 0 then [2] else [3];
    FlatIsNested(When((_: seq<int>) => a, Mark(1), rest), []);
  }

  // ----- arms without a break -----

  function BreakFree<S>(arms: Arms<S>): nat {
    match arms
    case NoMore => 0
    case Last(_, breaks) => if breaks then 0 else 1
    case Arm(_, _, breaks, rest) => (if breaks then 0 else 1) + BreakFree(rest)
  }

  /** The bodies of the arms, but not the arms themselves, end their arms in breaks. */
  predicate BodiesBreak<S>(arms: Arms<S>) {
    match arms
    case NoMore => true
    case Last(body, _) => Breaks(body)
    case Arm(_, body, _, rest) => Breaks(body) && BodiesBreak(rest)
  }

  lemma {:induction false} NoBreakFree<S>(arms: Arms<S>)
    requires BodiesBreak(arms)
    ensures BreakFree(arms) == 0 <==> ArmsBreak(arms)
  {
    if arms.Arm? { NoBreakFree(arms.rest); }
  }

  /** A switch in which frames of earlier arms have been left: dead ones, of the type -2. */
  predicate Littered<S>(n: Machine<S>, m: Machine<S>, v: Value, k: nat) {
    && |n.conds| == k + 1 + |m.conds| && n.conds[k..] == [Cond(1, 1)] + m.conds
    && (k > 0 ==> n.conds[0] == Cond(0, -2))
    && n.matches == m.matches && n.selectors == [Selector(v, 0)] + m.selectors && n.failed == m.failed
  }

  /** When no label fits, each arm without a break leaves one frame on the condition stack. */
  lemma {:induction false} EachLeaks<S>(arms: Arms<S>, n: Machine<S>, m: Machine<S>, v: Value, k: nat)
    requires Littered(n, m, v, k) && BodiesBreak(arms) && NoneFits(arms, v, n.store)
    ensures var r := Run(n, ArmsCode(arms)); |r.conds| == |m.conds| + k + BreakFree(arms)
  {
    hide Exec, Code, Breaks;
    match arms
    case NoMore =>
      RunOne(n, EndSwitch);
    case Last(body, breaks) => LastLeaks(body, breaks, n, m, v, k);
    case Arm(test, body, breaks, rest) =>
      var x := CondPush(n, 0, -2);
      ArmLeaks(test, body, breaks, rest, n, m, v, k);
      if breaks { EachLeaks(rest, n, m, v, k); } else { EachLeaks(rest, x, m, v, k + 1); }
  }

  lemma LastLeaks<S>(body: Prog<S>, breaks: bool, n: Machine<S>, m: Machine<S>, v: Value, k: nat)
    requires Littered(n, m, v, k) && Breaks(body)
    ensures |Run(n, ArmsCode(Last(body, breaks))).conds| == |m.conds| + k + if breaks then 0 else 1
  {
    hide Exec, Code, Breaks;
    var x := CondPush(n, 1, -2);
    assert Step(n, Default) == x;
    RunParts(n, Default, Code(body), BreakCode(breaks) + [EndSwitch]);
    LiveProg(body, x);
    var y := x.(store := Exec(body, x.store));
    RunSplit(y, BreakCode(breaks), [EndSwitch]);
    RunOne(y, Break);
    RunOne(Run(y, BreakCode(breaks)), EndSwitch);
  }

  /** An arm that does not fit leaves the machine as it was, or with one frame more. */
  lemma ArmLeaks<S>(test: S -> Value, body: Prog<S>, breaks: bool, rest: Arms<S>, n: Machine<S>, m: Machine<S>,
          v: Value, k: nat)
    requires Littered(n, m, v, k) && Breaks(body) && !Equals(test(n.store), v)
    ensures var x := CondPush(n, 0, -2);
            && Run(n, ArmsCode(Arm(test, body, breaks, rest))) == Run(if breaks then n else x, ArmsCode(rest))
            && x.store == n.store && (!breaks ==> Littered(x, m, v, k + 1))
  {
    hide Exec, Code, Breaks;
    var x := CondPush(n, 0, -2);
    assert Step(n, Case(test)) == x;
    RunParts(n, Case(test), Code(body), BreakCode(breaks) + ArmsCode(rest));
    DeadProg(body, x);
    RunSplit(x, BreakCode(breaks), ArmsCode(rest));
    RunOne(x, Break);
    if breaks {
      PopPushed(n, 0, -2, 0);
      assert n.selectors == [Selector(v, 0)] + n.selectors[1..];
      assert Step(x, Break) == n;
    }
  }

  function LabelSize(s: string, n: int, d: real): nat {
    |s| + (if n < 0 then -n else n) + (if d < 0.0 then -d else d).Floor
  }

  /** A value that no label of arms fits. */
  lemma {:induction false} SomeValue<S>(arms: Arms<S>, store: S) returns (bound: nat)
    ensures forall x: nat :: x >= bound ==> NoneFits(arms, Big(x), store)
  {
    match arms
    case NoMore => bound := 0;
    case Last(_, _) => bound := 0;
    case Arm(test, _, _, rest) =>
      var b := SomeValue(rest, store);
      var l := test(store);
      bound := b + LabelSize(l.strval, l.intval, l.douval) + 1;
      forall x: nat | x >= bound ensures NoneFits(arms, Big(x), store) {
        BigDiffers(l, x);
        assert NoneFits(rest, Big(x), store);
      }
  }

  function Big(x: nat): Value {
    Value(LNUMBER, x, x as real, Blanks(x))
  }

  function Blanks(x: nat): (s: string)
    ensures |s| == x
  {
    seq(x, _ => ' ')
  }

  lemma BigDiffers(l: Value, x: nat)
    requires x > LabelSize(l.strval, l.intval, l.douval)
    ensures !Equals(l, Big(x))
  {
  }

  /** The condition stack ends as it began for every value switched on exactly when every arm of the
      switch ends in a break. */
  lemma BreaksNeeded<S>(arms: Arms<S>, m: Machine<S>)
    requires State(m) != 0 && BodiesBreak(arms)
    ensures (forall v: Value :: KeepsStacks(arms, v, m)) <==> ArmsBreak(arms)
  {
    NoBreakFree(arms);
    if ArmsBreak(arms) {
      forall v: Value ensures KeepsStacks(arms, v, m) {
        LiveProg(Select((_: S) => v, arms), m);
      }
    } else {
      var x := SomeValue(arms, m.store);
      var n := Step(m, Switch((_: S) => Big(x)));
      RunSplit(m, [Switch((_: S) => Big(x))], ArmsCode(arms));
      RunOne(m, Switch((_: S) => Big(x)));
      EachLeaks(arms, n, m, Big(x), 0);
      assert !KeepsStacks(arms, Big(x), m);
    }
  }

  /** A switch on v leaves the condition stack as it was. */
  predicate KeepsStacks<S>(arms: Arms<S>, v: Value, m: Machine<S>) {
    Run(m, Code(Select((_: S) => v, arms))).conds == m.conds
  }
}
