/** The actions of src/parse.raw on the stacks of src/cond.c and src/switch.c. */
module ControlStacks {
  import opened Control
  import opened Recycled

  class Interpreter<S> {
    var store: S
    const conds: Stack<Cond>
    const matches: Stack<int>
    var selectors: seq<Selector>  // the switch stack, which does not re-use its nodes
    var failed: bool

    ghost predicate Valid()
      reads this, conds, conds.Repr, matches, matches.Repr
    {
      && conds.Valid() && matches.Valid()
      && conds.Repr !! matches.Repr && this !in conds.Repr && this !in matches.Repr
    }

    /** The machine that this object stands for. */
    ghost function Abs(): Machine<S>
      requires Valid()
      reads this, conds, conds.Repr, matches, matches.Repr
    {
      Machine(store, conds.Contents(), matches.Contents(), selectors, failed)
    }

    /** What every action may touch. */
    ghost function Frame(): set<object>
      reads this, conds, matches
    {
      {this as object} + conds.Repr + matches.Repr
    }

    constructor (store: S)
      ensures Valid() && Abs() == Machine(store, [], [], [], false) && fresh(conds.Repr) && fresh(matches.Repr)
    {
      this.store := store;
      conds := new Stack<Cond>();
      matches := new Stack<int>();
      selectors := [];
      failed := false;
    }

    method PushCond(state: int, active: int)
      requires Valid()
      modifies conds.Repr
      ensures Valid() && Abs() == CondPush(old(Abs()), state, active) && fresh(Frame() - old(Frame()))
    {
      conds.Push(Cond(state, active));
    }

    /** CondPop: the state that was on top, 0 if there was none. */
    method PopCond() returns (state: int)
      requires Valid()
      modifies conds.Repr
      ensures Valid() && Abs() == CondPop(old(Abs())) && fresh(Frame() - old(Frame()))
      ensures old(Abs()).conds != [] ==> state == State(old(Abs()))
    {
      var c := conds.Pop();
      state := if c.None? then 0 else c.value.state;
    }

    method PushMatch(val: int)
      requires Valid()
      modifies matches.Repr
      ensures Valid() && Abs() == MatchPush(old(Abs()), val) && fresh(Frame() - old(Frame()))
    {
      matches.Push(val);
    }

    method PopMatch() returns (val: int)
      requires Valid()
      modifies this`failed, matches.Repr
      ensures Valid() && Abs() == MatchPop(old(Abs())) && val == MatchTop(old(Abs())) && fresh(Frame() - old(Frame()))
    {
      var v := matches.Pop();
      if v.None? {
        failed := true;
        return 1;
      }
      return v.value;
    }

    /** GetCurrentState. */
    method Current() returns (state: int, active: int)
      requires Valid()
      ensures state == State(Abs()) && active == if Abs().conds == [] then -1 else Active(Abs())
    {
      var c := conds.Peek();
      if c.None? {
        return 1, -1;
      }
      return c.value.state, c.value.active;
    }

    method CurrentActive() returns (active: int)
      requires Valid()
      ensures active == Active(Abs())
    {
      var c := conds.Peek();
      return if c.None? then 0 else c.value.active;
    }

    lemma PopsApart(m: Machine<S>)
      ensures MatchTop(CondPop(m)) == MatchTop(m)
    {
    }

    method ReportError()
      requires Valid()
      modifies this`failed
      ensures Valid() && Abs() == Fail(old(Abs())) && Frame() == old(Frame())
    {
      failed := true;
    }

    method IfAction(c: S -> int)
      requires Valid()
      modifies Frame()
      ensures Valid() && Abs() == IfStep(old(Abs()), c) && fresh(Frame() - old(Frame()))
    {
      hide CondPush, CondPop, MatchPush, MatchPop, MatchTop, Abs, Valid;
      AbsParts();
      var k := c(store);  // the expression has been evaluated before the action
      var state, _ := Current();
      if state == 0 {
        PushCond(0, 0);
        PushMatch(0);
      } else {
        PushCond(k, 1);
        PushMatch(k);
      }
    }

    method ElseAction()
      requires Valid()
      modifies Frame()
      ensures Valid() && Abs() == ElseStep(old(Abs())) && fresh(Frame() - old(Frame()))
    {
      hide CondPush, CondPop, MatchPush, MatchPop, MatchTop, Abs, Valid;
      AbsParts();
      var state, active := Current();
      if active < 0 {
        ReportError();
        return;
      }
      if active == 0 {
        return;
      }
      PopsApart(Abs());
      state := PopCond();
      var k := PopMatch();
      PushCond(if k != 0 then 0 else 1, -1);
      PushMatch(if k != 0 then 0 else 1);
    }

    method ElseIfAction(c: S -> int)
      requires Valid()
      modifies Frame()
      ensures Valid() && Abs() == ElseIfStep(old(Abs()), c) && fresh(Frame() - old(Frame()))
    {
      hide CondPush, CondPop, MatchPush, MatchPop, MatchTop, Abs, Valid;
      AbsParts();
      var x := c(store);  // the expression has been evaluated before the action
      var state, active := Current();
      if active < 0 {
        ReportError();
        return;
      }
      if active == 0 {
        return;
      }
      var k := PopMatch();
      state := PopCond();
      if k == 0 {
        PushCond(x, 1);
        PushMatch(x);
      } else {
        PushMatch(k);
        PushCond(0, 1);
      }
    }

    method EndIfAction()
      requires Valid()
      modifies Frame()
      ensures Valid() && Abs() == MatchPop(CondPop(old(Abs()))) && fresh(Frame() - old(Frame()))
    {
      var state := PopCond();
      var k := PopMatch();
    }

    method SwitchAction(v: S -> Value)
      requires Valid()
      modifies Frame()
      ensures Valid() && Abs() == SwitchStep(old(Abs()), v) && fresh(Frame() - old(Frame()))
    {
      hide CondPush, State, Active, Abs, Valid;
      AbsParts();
      var state, _ := Current();
      var active := CurrentActive();
      if state != 0 || active == -2 || active == -3 {
        if state != 0 {
          PushSelector(v(store));
          PushCond(1, 1);
        } else {
          PushCond(0, -3);
        }
      }
    }

    method CaseAction(v: S -> Value)
      requires Valid()
      modifies Frame()
      ensures Valid() && Abs() == CaseStep(old(Abs()), v) && fresh(Frame() - old(Frame()))
    {
      var state, _ := Current();
      var active := CurrentActive();
      if active == -2 || state != 0 {
        if selectors == [] {
          ReportError();
          return;
        }
        if state != 0 && active == -2 {
          return;
        }
        var lab, top := v(store), selectors[0].value;
        var ret: bool;
        match lab.kind {
          case LNUMBER => ret := lab.intval == top.intval;
          case DNUMBER => ret := lab.douval == top.douval;
          case STRING => ret := lab.strval == top.strval;
        }
        PushCond(if ret then 1 else 0, -2);
      }
    }

    method DefaultAction()
      requires Valid()
      modifies Frame()
      ensures Valid() && Abs() == DefaultStep(old(Abs())) && fresh(Frame() - old(Frame()))
    {
      var state, _ := Current();
      var active := CurrentActive();
      if state != 0 || active == -2 {
        if selectors == [] {
          ReportError();
          return;
        }
        PushCond(if selectors[0].matched == 0 then 1 else 0, -2);
      }
    }

    method BreakAction()
      requires Valid()
      modifies Frame()
      ensures Valid() && Abs() == BreakStep(old(Abs())) && fresh(Frame() - old(Frame()))
    {
      hide CondPop, State, Active, Abs, Valid;
      AbsParts();
      var state, _ := Current();
      var active := CurrentActive();
      if state != 0 || active == -2 {
        if active > -2 || selectors == [] {
          ReportError();
          return;
        }
        SelectorsStay(Abs());
        state := PopCond();
        AbsParts();
        if selectors[0].matched == 0 {
          SetMatched(state);
        }
      }
    }

    lemma SelectorsStay(m: Machine<S>)
      ensures CondPop(m).selectors == m.selectors
      ensures m.conds == [] ==> State(m) != 0 && Active(m) > -2
      ensures m.selectors != [] ==> [m.selectors[0]] + m.selectors[1..] == m.selectors
    {
    }

    /** The switch on top has been matched. */
    method SetMatched(state: int)
      requires Valid() && selectors != []
      modifies this`selectors
      ensures Valid() && Frame() == old(Frame())
      ensures Abs() == old(Abs()).(selectors := [old(selectors)[0].(matched := state)] + old(selectors)[1..])
    {
      selectors := [selectors[0].(matched := state)] + selectors[1..];
    }

    /** SwitchPush. */
    method PushSelector(v: Value)
      requires Valid()
      modifies this`selectors
      ensures Valid() && Frame() == old(Frame())
      ensures Abs() == old(Abs()).(selectors := [Selector(v, 0)] + old(Abs()).selectors)
    {
      selectors := [Selector(v, 0)] + selectors;
    }

    method EndSwitchAction()
      requires Valid()
      modifies Frame()
      ensures Valid() && Abs() == EndSwitchStep(old(Abs())) && fresh(Frame() - old(Frame()))
    {
      hide CondPop, State, Active, Abs, Valid;
      AbsParts();
      var state, a := Current();
      var active := CurrentActive();
      if state != 0 || active == -2 || active == -3 {
        if a == -3 {
          state := PopCond();
        } else {
          PopSelector();
          state := PopCond();
        }
      }
    }

    /** SwitchPop. */
    method PopSelector()
      requires Valid()
      modifies this`selectors
      ensures Valid() && Frame() == old(Frame())
      ensures Abs() == old(Abs()).(selectors := if old(Abs()).selectors == [] then [] else old(Abs()).selectors[1..])
    {
      selectors := if selectors == [] then [] else selectors[1..];
    }

    lemma AbsParts()
      requires Valid()
      ensures Abs().store == store && Abs().failed == failed && Abs().selectors == selectors
    {
    }

    /** One action of the parser. */
    method Perform(tok: Token<S>)
      requires Valid()
      modifies Frame()
      ensures Valid() && Abs() == Step(old(Abs()), tok) && fresh(Frame() - old(Frame()))
    {
      match tok {
        case Do(act) => {
          var state, _ := Current();
          if state != 0 {
            store := act(store);
          }
        }
        case If(c) => IfAction(c);
        case ElseIf(c) => ElseIfAction(c);
        case Else => ElseAction();
        case EndIf => EndIfAction();
        case Switch(v) => SwitchAction(v);
        case Case(v) => CaseAction(v);
        case Default => DefaultAction();
        case Break => BreakAction();
        case EndSwitch => EndSwitchAction();
      }
    }

    /** The parser's loop over a whole file. */
    method PerformAll(toks: seq<Token<S>>)
      requires Valid()
      modifies Frame()
      ensures Valid() && Abs() == Run(old(Abs()), toks) && fresh(Frame() - old(Frame()))
    {
      for k := 0 to |toks|
        invariant Valid() && Run(Abs(), toks[k..]) == Run(old(Abs()), toks) && fresh(Frame() - old(Frame()))
      {
        assert toks[k..][1..] == toks[k + 1..];
        Perform(toks[k]);
      }
    }
  }

  /** A whole program, on the stacks. */
  method Execute<S>(p: Prog<S>, store: S) returns (end: S)
    requires Breaks(p)
    ensures end == Exec(p, store)
  {
    var machine := new Interpreter<S>(store);
    machine.PerformAll(Code(p));
    FlatIsNested(p, store);
    end := machine.store;
  }
}
