/** The symbol table of src/var.c: a tree for the main program and one for each function that is being
    called, and the variables that functions declare global. */
module VarFrames {
  import opened VarTrees
  import Control

  // ----- what the operations mean -----

  /** The variables of the main program, and those of the functions, the current one first. */
  datatype State = State(main: map<seq<byte>, Var>, locals: seq<map<seq<byte>, Var>>)

  datatype Found = Nothing | Something(value: Control.Value)

  const GLOBAL: int := 4
  const HIDDEN: int := -2

  function Put(m: map<seq<byte>, Var>, name: seq<byte>, v: Control.Value, scope: int, inc: int): map<seq<byte>, Var> {
    m[name := if name in m then m[name].(value := v, deleted := false, flag := inc) else Var(v, false, scope, inc)]
  }

  /** The name stands for the variable of the main program. */
  predicate IsStub(s: State, name: seq<byte>) {
    s.locals != [] && name in s.locals[0] && s.locals[0][name].scope == GLOBAL
  }

  /** SetVar of a simple variable.  Through a stub nothing can be set while the main program has no
      variables at all. */
  function SetStep(s: State, name: seq<byte>, v: Control.Value, mode: int, inc: int): State {
    if s.locals == [] then s.(main := Put(s.main, name, v, mode, inc))
    else if IsStub(s, name) && mode != GLOBAL then
      if s.main == map[] then s else s.(main := Put(s.main, name, v, mode, inc))
    else s.(locals := [Put(s.locals[0], name, v, mode, inc)] + s.locals[1..])
  }

  predicate Visible(v: Var) {
    !v.deleted && v.flag != HIDDEN
  }

  function Look(m: map<seq<byte>, Var>, name: seq<byte>): Found {
    if name in m && Visible(m[name]) then Something(m[name].value) else Nothing
  }

  /** GetVar of a simple variable. */
  function GetStep(s: State, name: seq<byte>): Found {
    if s.locals == [] then Look(s.main, name)
    else if IsStub(s, name) && Visible(s.locals[0][name]) then Look(s.main, name)
    else Look(s.locals[0], name)
  }

  function Gone(m: map<seq<byte>, Var>, name: seq<byte>): map<seq<byte>, Var>
    requires name in m
  {
    m[name := m[name].(deleted := true, value := m[name].value.(strval := ""))]
  }

  /** UnSet. */
  function UnsetStep(s: State, name: seq<byte>): State {
    if GetStep(s, name).Nothing? then s
    else if s.locals == [] || IsStub(s, name) then if name in s.main then s.(main := Gone(s.main, name)) else s
    else if name in s.locals[0] then s.(locals := [Gone(s.locals[0], name)] + s.locals[1..])
    else s
  }

  function PushStep(s: State): State {
    s.(locals := [map[]] + s.locals)
  }

  function PopStep(s: State): State {
    if s.locals == [] then s else s.(locals := s.locals[1..])
  }

  const ZERO := Control.Value(Control.LNUMBER, 0, 0.0, "0")

  function Secured(v: Var): Var {
    if v.flag == -1 then v.(flag := HIDDEN) else v
  }

  function SecureMap(m: map<seq<byte>, Var>, hit: seq<byte> -> bool): map<seq<byte>, Var> {
    map n | n in m :: if hit(n) then Secured(m[n]) else m[n]
  }

  function SecureStep(s: State, hit: seq<byte> -> bool): State {
    if s.locals == [] then s.(main := SecureMap(s.main, hit))
    else s.(locals := [SecureMap(s.locals[0], hit)] + s.locals[1..])
  }

  // ----- calls -----

  /** settled: the current tree is that of the current function.  If not, then that function has no
      variables, and the current tree is that of the main program.  hung: some call does not return. */
  datatype Table = Table(s: State, settled: bool, hung: bool)

  datatype Op =
    | Assign(name: seq<byte>, value: Control.Value, inc: int)
    | Delete(name: seq<byte>)
    | Declare(names: seq<seq<byte>>)
    | Secure(hit: seq<byte> -> bool)
    | Call
    | Return

  /** What GetVar finds. */
  function Read(t: Table, name: seq<byte>): Found {
    if t.settled then GetStep(t.s, name) else Look(t.s.main, name)
  }

  /** SetVar, when it returns. */
  function SetIn(t: Table, name: seq<byte>, v: Control.Value, mode: int, inc: int): Table {
    t.(s := if t.settled then SetStep(t.s, name, v, mode, inc) else t.s.(main := Put(t.s.main, name, v, mode, inc)))
  }

  /** SetVar does not return: it comes to a stub in the tree of the main program. */
  predicate Hangs(t: Table, name: seq<byte>) {
    && t.s.locals != [] && name in t.s.main && t.s.main[name].scope == GLOBAL
    && (t.settled ==> IsStub(t.s, name))
  }

  /** Global: a stub for each name that does not stand for anything yet. */
  function DeclareIn(t: Table, names: seq<seq<byte>>): Table
    decreases |names|
  {
    if t.s.locals == [] || names == [] then t
    else DeclareIn(if Read(t, names[0]).Nothing? then SetIn(t, names[0], ZERO, GLOBAL, 0) else t, names[1..])
  }

  function Step(t: Table, op: Op): Table {
    if t.hung then t
    else
      match op
      case Assign(n, v, inc) => if Hangs(t, n) then t.(hung := true) else SetIn(t, n, v, 0, inc)
      case Delete(n) =>
        t.(s := if t.settled then UnsetStep(t.s, n)
                else if n !in t.s.main || !Visible(t.s.main[n]) then t.s
                else t.s.(main := Gone(t.s.main, n)))
      case Declare(names) => DeclareIn(t, names)
      case Secure(hit) => t.(s := if t.settled then SecureStep(t.s, hit) else t.s.(main := SecureMap(t.s.main, hit)))
      case Call => Table(PushStep(t.s), true, false)
      case Return => if t.s.locals == [] then t else Table(PopStep(t.s), HasTree(PopStep(t.s)), false)
  }

  /** The current function has variables, or the main program has none either. */
  predicate HasTree(s: State) {
    s.locals == [] || s.locals[0] != map[] || s.main == map[]
  }

  // ----- memory -----

  /** The trees of the main program and of the functions lie apart from each other in memory. */
  ghost predicate Ok(nodes: Nodes, root: int, main: Tree, frames: seq<int>, locals: seq<Tree>) {
    && 0 !in nodes && IsTree(nodes, root, main) && |locals| == |frames|
    && (forall k :: 0 <= k < |locals| ==> IsTree(nodes, frames[k], locals[k]) && Addrs(locals[k]) !! Addrs(main))
    && forall j, k :: 0 <= j < k < |locals| ==> Addrs(locals[j]) !! Addrs(locals[k])
  }

  ghost function AbsOf(nodes: Nodes, main: Tree, locals: seq<Tree>): State {
    State(Vars(nodes, main), seq(|locals|, k requires 0 <= k < |locals| => Vars(nodes, locals[k])))
  }

  /** What SetVar makes of a tree and of memory. */
  ghost predicate PutNodes(nodes: Nodes, nodes': Nodes, t: Tree, name: seq<byte>, v: Control.Value, scope: int,
          inc: int, mem: int) {
    var a := Search(nodes, t, name);
    if a != 0 then a in nodes && nodes' == nodes[a := nodes[a].(value := v, deleted := false, flag := inc)]
    else
      && Linked(nodes, nodes', LastOn(nodes, t, name), name, mem, Node(name, v, 0, 0, false, scope, inc))
      && nodes'.Keys == nodes.Keys + {mem}
  }

  function PutTree(nodes: Nodes, t: Tree, name: seq<byte>, mem: int): Tree {
    if Search(nodes, t, name) != 0 then t else Hung(nodes, t, name, mem)
  }

  lemma PutVars(nodes: Nodes, nodes': Nodes, root: int, t: Tree, name: seq<byte>, v: Control.Value, scope: int,
          inc: int, mem: int)
    requires IsTree(nodes, root, t) && PutNodes(nodes, nodes', t, name, v, scope, inc, mem) && 0 !in nodes
    ensures var t' := PutTree(nodes, t, name, mem);
      && IsTree(nodes', if t.Leaf? then mem else root, t')
      && Vars(nodes', t') == Put(Vars(nodes, t), name, v, scope, inc)
      && Addrs(t') <= Addrs(t) + {mem}
      && forall b :: b in nodes && b !in Addrs(t) ==> b in nodes' && nodes'[b] == nodes[b]
  {
    hide *;
    var a := Search(nodes, t, name);
    PutNodesIs(nodes, nodes', t, name, v, scope, inc, mem);
    PutTreeIs(nodes, t, name, mem);
    VarsAt(nodes, root, t, name);
    PutIs(Vars(nodes, t), name, v, scope, inc);
    StepDown(nodes, t, name);
    if a != 0 {
      VarsSet(nodes, nodes', root, t, a);
      VarOfIs(nodes[a]);
      VarOfIs(nodes'[a]);
    } else {
      var node := Node(name, v, 0, 0, false, scope, inc);
      Inserted(nodes, nodes', root, t, name, mem, node);
      VarsInserted(nodes, nodes', root, t, name, mem, node);
      VarOfIs(node);
      LinkedParts(nodes, nodes', LastOn(nodes, t, name), name, mem, node);
      LastIn(nodes, root, t, name);
      TreeIn(nodes, root, t);
    }
  }

  lemma VarOfIs(n: Node)
    ensures VarOf(n) == Var(n.value, n.deleted, n.scope, n.flag)
  {
  }

  lemma PutIs(m: map<seq<byte>, Var>, name: seq<byte>, v: Control.Value, scope: int, inc: int)
    ensures name in m ==> Put(m, name, v, scope, inc) == m[name := Var(v, false, m[name].scope, inc)]
    ensures name !in m ==> Put(m, name, v, scope, inc) == m[name := Var(v, false, scope, inc)]
  {
  }

  lemma PutTreeIs(nodes: Nodes, t: Tree, name: seq<byte>, mem: int)
    ensures PutTree(nodes, t, name, mem) == if Search(nodes, t, name) != 0 then t else Hung(nodes, t, name, mem)
  {
    hide Search, Hung;
  }

  lemma PutNodesIs(nodes: Nodes, nodes': Nodes, t: Tree, name: seq<byte>, v: Control.Value, scope: int, inc: int,
          mem: int)
    ensures var a := Search(nodes, t, name);
      PutNodes(nodes, nodes', t, name, v, scope, inc, mem) <==>
        if a != 0 then a in nodes && nodes' == nodes[a := nodes[a].(value := v, deleted := false, flag := inc)]
        else
          && Linked(nodes, nodes', LastOn(nodes, t, name), name, mem, Node(name, v, 0, 0, false, scope, inc))
          && nodes'.Keys == nodes.Keys + {mem}
  {
    hide Search, LastOn, Linked;
  }

  // ----- what an operation on one tree leaves alone -----

  /** The tree of the main program has changed, and memory nowhere else. */
  lemma MainChanged(nodes: Nodes, nodes': Nodes, root: int, root': int, main: Tree, main': Tree, frames: seq<int>,
          locals: seq<Tree>, mem: int)
    requires Ok(nodes, root, main, frames, locals) && IsTree(nodes', root', main') && 0 !in nodes' && mem !in nodes
    requires Addrs(main') <= Addrs(main) + {mem} && forall b :: b in nodes && b !in Addrs(main) ==>
      b in nodes' && nodes'[b] == nodes[b]
    ensures Ok(nodes', root', main', frames, locals)
    ensures AbsOf(nodes', main', locals) == AbsOf(nodes, main, locals).(main := Vars(nodes', main'))
  {
    hide IsTree, Vars;
    forall k | 0 <= k < |locals| ensures IsTree(nodes', frames[k], locals[k])
      && Vars(nodes', locals[k]) == Vars(nodes, locals[k]) {
      TreeIn(nodes, frames[k], locals[k]);
      VarsKept(nodes, nodes', frames[k], locals[k]);
    }
    forall k | 0 <= k < |locals| ensures Addrs(locals[k]) !! Addrs(main') { TreeIn(nodes, frames[k], locals[k]); }
  }

  /** The tree of the current function has changed, and memory nowhere else. */
  lemma LocalChanged(nodes: Nodes, nodes': Nodes, root: int, main: Tree, frames: seq<int>, locals: seq<Tree>,
          top: int, t': Tree, mem: int)
    requires Ok(nodes, root, main, frames, locals) && locals != [] && 0 !in nodes' && mem !in nodes
      && IsTree(nodes', top, t')
    requires Addrs(t') <= Addrs(locals[0]) + {mem} && forall b :: b in nodes && b !in Addrs(locals[0]) ==>
      b in nodes' && nodes'[b] == nodes[b]
    ensures frames != []
    ensures var locals' := [t'] + locals[1..];
      && Ok(nodes', root, main, [top] + frames[1..], locals')
      && AbsOf(nodes', main, locals') ==
        AbsOf(nodes, main, locals).(locals := [Vars(nodes', t')] + AbsOf(nodes, main, locals).locals[1..])
  {
    hide *;
    OkParts(nodes, root, main, frames, locals);
    var locals', frames' := [t'] + locals[1..], [top] + frames[1..];
    OkAt(nodes, root, main, frames, locals, 0);
    OtherKept(nodes, nodes', root, main, locals[0], t', mem);
    forall k | 0 < k < |locals|
      ensures IsTree(nodes', frames'[k], locals'[k]) && Vars(nodes', locals'[k]) == Vars(nodes, locals[k])
      ensures Addrs(locals'[k]) !! Addrs(main) && Addrs(t') !! Addrs(locals'[k])
      ensures forall j :: 0 < j < k ==> Addrs(locals'[j]) !! Addrs(locals'[k])
    {
      OkAt(nodes, root, main, frames, locals, k);
      OtherKept(nodes, nodes', frames[k], locals[k], locals[0], t', mem);
      assert locals'[k] == locals[k] && frames'[k] == frames[k];
      assert forall j :: 0 < j < k ==> locals'[j] == locals[j];
    }
    ApartFromTop(locals', t');
    OkIntro(nodes', root, main, frames', locals');
    AbsIs(nodes, main, locals);
    AbsIs(nodes', main, locals');
    assert AbsOf(nodes', main, locals').locals == [Vars(nodes', t')] + AbsOf(nodes, main, locals).locals[1..];
  }

  lemma ApartFromTop(trees: seq<Tree>, top: Tree)
    requires trees != [] && trees[0] == top
    requires forall k :: 0 < k < |trees| ==> Addrs(top) !! Addrs(trees[k])
    requires forall k, j :: 0 < j < k < |trees| ==> Addrs(trees[j]) !! Addrs(trees[k])
    ensures forall j, k :: 0 <= j < k < |trees| ==> Addrs(trees[j]) !! Addrs(trees[k])
  {
    hide Addrs;
  }

  lemma OkAt(nodes: Nodes, root: int, main: Tree, frames: seq<int>, locals: seq<Tree>, k: nat)
    requires Ok(nodes, root, main, frames, locals) && k < |locals|
    ensures |frames| == |locals| && IsTree(nodes, frames[k], locals[k]) && Addrs(locals[k]) !! Addrs(main)
    ensures forall j :: 0 <= j < k ==> Addrs(locals[j]) !! Addrs(locals[k])
  {
    hide IsTree, Vars, Addrs;
  }

  lemma OkIntro(nodes: Nodes, root: int, main: Tree, frames: seq<int>, locals: seq<Tree>)
    requires 0 !in nodes && IsTree(nodes, root, main) && |locals| == |frames|
    requires forall k :: 0 <= k < |locals| ==> IsTree(nodes, frames[k], locals[k]) && Addrs(locals[k]) !! Addrs(main)
    requires forall j, k :: 0 <= j < k < |locals| ==> Addrs(locals[j]) !! Addrs(locals[k])
    ensures Ok(nodes, root, main, frames, locals)
  {
    hide IsTree, Vars, Addrs;
  }

  /** A tree that lies apart from the changed one. */
  lemma OtherKept(nodes: Nodes, nodes': Nodes, root: int, other: Tree, t: Tree, t': Tree, mem: int)
    requires IsTree(nodes, root, other) && Addrs(t) !! Addrs(other) && mem !in nodes && Addrs(t') <= Addrs(t) + {mem}
    requires forall b :: b in nodes && b !in Addrs(t) ==> b in nodes' && nodes'[b] == nodes[b]
    ensures IsTree(nodes', root, other) && Vars(nodes', other) == Vars(nodes, other) && Addrs(t') !! Addrs(other)
  {
    hide IsTree, Vars, Addrs;
    TreeIn(nodes, root, other);
    VarsKept(nodes, nodes', root, other);
  }

  /** New nodes that no tree leads to do not matter. */
  lemma NothingChanged(nodes: Nodes, nodes': Nodes, root: int, main: Tree, frames: seq<int>, locals: seq<Tree>)
    requires Ok(nodes, root, main, frames, locals) && 0 !in nodes' && forall b :: b in nodes ==>
      b in nodes' && nodes'[b] == nodes[b]
    ensures Ok(nodes', root, main, frames, locals) && AbsOf(nodes', main, locals) == AbsOf(nodes, main, locals)
  {
    hide IsTree, Vars;
    TreeIn(nodes, root, main);
    VarsKept(nodes, nodes', root, main);
    forall k | 0 <= k < |locals| ensures IsTree(nodes', frames[k], locals[k])
      && Vars(nodes', locals[k]) == Vars(nodes, locals[k]) {
      TreeIn(nodes, frames[k], locals[k]);
      VarsKept(nodes, nodes', frames[k], locals[k]);
    }
  }

  class SymbolTable {
    var nodes: Nodes
    var varMain: int
    var varTop: int
    /** The roots of the trees of the functions that are being called, the current one first. */
    var frames: seq<int>
    /** The stack of SecureVar. */
    var ptrs: seq<int>
    ghost var main: Tree
    ghost var locals: seq<Tree>

    function MainRoot(): int
      reads this
    {
      if frames == [] then varTop else varMain
    }

    ghost predicate Valid()
      reads this
    {
      Ok(nodes, MainRoot(), main, frames, locals) && (Settled() || Stray())
    }

    ghost function Abs(): State
      reads this
    {
      AbsOf(nodes, main, locals)
    }

    ghost function Now(): Table
      reads this
    {
      Table(Abs(), Settled(), false)
    }

    /** varTop is the tree of the current function. */
    predicate Settled()
      reads this
    {
      frames != [] ==> varTop == frames[0]
    }

    /** The current function has no variables, and varTop is the tree of the main program. */
    predicate Stray()
      reads this
    {
      frames != [] && frames[0] == 0 && varTop == varMain && varMain != 0
    }

    constructor ()
      ensures Valid() && Settled() && Abs() == State(map[], [])
    {
      nodes, varMain, varTop, frames := map[], 0, 0, [];
      main, locals, ptrs := Leaf, [], [];
      new;
      assert Vars(nodes, Leaf) == map[];
    }

    /** The part of SetVar that sets or makes a variable in the tree at varTop. */
    method PutHere(name: seq<byte>, v: Control.Value, mode: int, inc: int, mem: int, ghost tree: Tree)
      requires IsTree(nodes, varTop, tree) && IsName(name) && mem > 0 && mem !in nodes && 0 !in nodes
      modifies `nodes, `varTop, `frames
      ensures PutNodes(old(nodes), nodes, tree, name, v, mode, inc, mem)
      ensures varTop == if tree.Leaf? then mem else old(varTop)
      ensures frames == if tree.Leaf? && old(frames) != [] && old(frames)[0] == 0 then old(frames)[0 := mem]
        else old(frames)
    {
      hide *;
      var t, ot, oi := Walk(nodes, varTop, name, tree);
      TreeIn(nodes, varTop, tree);
      SearchFinds(nodes, varTop, tree, name);
      LastIn(nodes, varTop, tree, name);
      StepDown(nodes, tree, name);
      ghost var before := nodes;
      if t != 0 {
        nodes := nodes[t := nodes[t].(value := v, deleted := false, flag := inc)];
      } else {
        var node := Node(name, v, 0, 0, false, mode, inc);
        if varTop == 0 {
          varTop := mem;
          if frames != [] && frames[0] == 0 {
            frames := frames[0 := mem];
          }
        } else if ByteAt(name, oi) < ByteAt(nodes[ot].name, oi) {
          nodes := nodes[ot := nodes[ot].(left := mem)];
        } else {
          nodes := nodes[ot := nodes[ot].(right := mem)];
        }
        nodes := nodes[mem := node];
        LinkedIntro(before, nodes, LastOn(before, tree, name), name, mem, node);
      }
      PutNodesIs(before, nodes, tree, name, v, mode, inc, mem);
    }

    lemma Parts()
      ensures Valid() <==> Ok(nodes, MainRoot(), main, frames, locals) && (Settled() || Stray())
      ensures MainRoot() == if frames == [] then varTop else varMain
      ensures Settled() <==> (frames != [] ==> varTop == frames[0])
      ensures Stray() <==> frames != [] && frames[0] == 0 && varTop == varMain && varMain != 0
      ensures Abs() == AbsOf(nodes, main, locals) && Now() == Table(Abs(), Settled(), false)
    {
      hide Ok, AbsOf;
    }

    /** SetVar of a simple variable, when it returns: mode is 0, or 4 to make a stub; mem is what malloc
        answers. */
    method Set(name: seq<byte>, v: Control.Value, mode: int, inc: int, mem: int)
      requires Valid() && IsName(name) && mem > 0 && mem !in nodes
      requires (mode == 0 && !Hangs(Now(), name)) || (mode == GLOBAL && frames != [])
      modifies this
      ensures Valid() && Now() == SetIn(old(Now()), name, v, mode, inc)
      ensures mode == 0 ==> Now() == Step(old(Now()), Assign(name, v, inc))
      ensures |frames| == |old(frames)| && forall b :: b in nodes ==> b in old(nodes) || b == mem
    {
      hide *;
      Parts();
      ModeIs();
      AssignIs(Now(), name, v, inc);
      SetInIs(Now(), name, v, mode, inc);
      HangsIs(Now(), name);
      OkParts(nodes, MainRoot(), main, frames, locals);
      ghost var before, root := nodes, MainRoot();
      AbsIs(nodes, main, locals);
      if frames == [] {
        SetIs(Abs(), name, v, mode, inc);
        PutHere(name, v, mode, inc, mem, main);
        PutMain(before, nodes, root, main, frames, locals, name, v, mode, inc, mem);
        main := PutTree(before, main, name, mem);
      } else {
        ghost var t0 := if varTop == frames[0] then locals[0] else main;
        var t, ot, oi := Walk(nodes, varTop, name, t0);
        VarsAt(nodes, varTop, t0, name);
        TreeIn(nodes, varTop, t0);
        if t != 0 { VarOfIs(nodes[t]); }
        StubIs(nodes, main, locals, name);
        SetIs(Abs(), name, v, mode, inc);
        if t != 0 && nodes[t].scope == GLOBAL && mode != GLOBAL {
          StubRoot(nodes, frames, locals, name);
          varTop := varMain;
          EmptyMain(nodes, varMain, main);
          PutHere(name, v, mode, inc, mem, main);
          if main.Leaf? {
            Orphan(before, nodes, root, main, frames, locals, name, v, mode, inc, mem);
          } else {
            PutMain(before, nodes, root, main, frames, locals, name, v, mode, inc, mem);
            main := PutTree(before, main, name, mem);
          }
          varTop := frames[0];
        } else if varTop != frames[0] {
          PutHere(name, v, mode, inc, mem, t0);
          PutMain(before, nodes, root, main, frames, locals, name, v, mode, inc, mem);
          main := PutTree(before, main, name, mem);
        } else {
          PutHere(name, v, mode, inc, mem, t0);
          PutLocal(before, nodes, root, main, frames, locals, old(frames), varTop, name, v, mode, inc, mem);
          locals := [PutTree(before, t0, name, mem)] + locals[1..];
        }
      }
      Parts();
    }

    /** The walk of GetVar in the tree at varTop: 0 if the variable is not there, or cannot be seen. */
    method GetHere(name: seq<byte>, ghost tree: Tree) returns (t: int)
      requires IsTree(nodes, varTop, tree) && IsName(name) && 0 !in nodes
      ensures Look(Vars(nodes, tree), name) == if t == 0 then Nothing
        else if t in nodes then Something(nodes[t].value) else Nothing
      ensures t != 0 ==>
        && t in nodes && t in Addrs(tree) && nodes[t].name == name && Visible(VarOf(nodes[t]))
        && t == Search(nodes, tree, name)
      ensures t == 0 && name in Vars(nodes, tree) ==> !Visible(Vars(nodes, tree)[name])
    {
      hide *;
      VarsAt(nodes, varTop, tree, name);
      LookIs(Vars(nodes, tree), name);
      ghost var ot, oi;
      t, ot, oi := Walk(nodes, varTop, name, tree);
      if t != 0 {
        VarOfIs(nodes[t]);
        VisibleIs(VarOf(nodes[t]));
        if nodes[t].flag == -2 { return 0; }
        if nodes[t].deleted { return 0; }
      }
    }

    /** GetVar of a simple variable: its node, or 0. */
    method Get(name: seq<byte>) returns (t: int)
      requires Valid() && IsName(name)
      modifies `varTop
      ensures varTop == old(varTop) && Valid() && Settled() == old(Settled()) && Abs() == old(Abs())
      ensures t != 0 ==> t in nodes
      ensures Read(Now(), name) == if t == 0 then Nothing else Something(nodes[t].value)
      ensures t != 0 ==> t in nodes && nodes[t].name == name && IsHere(t, name)
    {
      hide *;
      Parts();
      OkParts(nodes, MainRoot(), main, frames, locals);
      AbsIs(nodes, main, locals);
      GetIs(Abs(), name);
      ReadIs(Now(), name);
      if frames == [] {
        t := GetHere(name, main);
      } else {
        ghost var t0 := if varTop == frames[0] then locals[0] else main;
        StubIs(nodes, main, locals, name);
        VarsAt(nodes, varTop, t0, name);
        t := GetHere(name, t0);
        ModeIs();
        if t != 0 && nodes[t].scope == GLOBAL {
          if varTop == frames[0] {
            AddrsOf(locals[0]);
            OtherRoot(nodes, varMain, main, varTop, locals[0], frames, locals);
          }
          if varTop != varMain {
            varTop := varMain;
            t := GetHere(name, main);
            varTop := frames[0];
          }
        } else if t == 0 {
          LookIs(Vars(nodes, locals[0]), name);
        }
      }
      Parts();
      HereIs(t, name);
    }

    /** t is the node of the variable that the name stands for. */
    ghost predicate IsHere(t: int, name: seq<byte>)
      reads this
    {
      if frames == [] || IsStub(Abs(), name) || !Settled() then t in Addrs(main) && t == Search(nodes, main, name)
      else locals != [] && t in Addrs(locals[0]) && t == Search(nodes, locals[0], name)
    }

    lemma HereIs(t: int, name: seq<byte>)
      ensures IsHere(t, name) <==>
        if frames == [] || IsStub(Abs(), name) || !Settled() then t in Addrs(main) && t == Search(nodes, main, name)
        else locals != [] && t in Addrs(locals[0]) && t == Search(nodes, locals[0], name)
    {
      hide Search, IsStub, Abs, Addrs, Settled;
    }

    /** UnSet. */
    method Unset(name: seq<byte>)
      requires Valid() && IsName(name)
      modifies `nodes, `varTop
      ensures Valid() && nodes.Keys == old(nodes).Keys && Now() == Step(old(Now()), Delete(name))
    {
      hide *;
      Parts();
      var t := Get(name);
      UnsetIs(Abs(), name);
      DeleteIs(Now(), name);
      ReadIs(Now(), name);
      LookIs(Abs().main, name);
      Parts();
      if t != 0 {
        HereIs(t, name);
        AbsIs(nodes, main, locals);
        OkParts(nodes, MainRoot(), main, frames, locals);
        ghost var before, root := nodes, MainRoot();
        nodes := nodes[t := nodes[t].(deleted := true, value := nodes[t].value.(strval := ""))];
        if frames == [] || IsStub(AbsOf(before, main, locals), name) || varTop != frames[0] {
          UnsetMain(before, nodes, root, main, frames, locals, t);
        } else {
          UnsetLocal(before, nodes, root, main, frames, locals, t);
        }
        Parts();
      }
    }

    /** PushStackFrame. */
    method PushFrame()
      requires Valid()
      modifies this
      ensures Valid() && Now() == Step(old(Now()), Call) && nodes == old(nodes) && |frames| == |old(frames)| + 1
    {
      hide *;
      Parts();
      CallIs(Now());
      PushOk(nodes, MainRoot(), main, frames, locals);
      if frames == [] {
        varMain := varTop;
      }
      frames := [0] + frames;
      varTop := 0;
      locals := [Leaf] + locals;
      Parts();
    }

    /** PopStackFrame.  When the caller is a function that has no variables of its own, but the main
        program has, then the caller goes on with the variables of the main program. */
    method PopFrame()
      requires Valid()
      modifies this
      ensures Valid() && Now() == Step(old(Now()), Return) && nodes == old(nodes)
    {
      hide *;
      Parts();
      ReturnIs(Now());
      AbsIs(nodes, main, locals);
      OkParts(nodes, MainRoot(), main, frames, locals);
      PopOk(nodes, MainRoot(), main, frames, locals);
      if frames != [] {
        frames := frames[1..];
        if frames == [] || frames[0] == 0 {
          varTop := varMain;
        } else {
          varTop := frames[0];
        }
        locals := locals[1..];
        if frames != [] {
          OkParts(nodes, varMain, main, frames, locals);
          EmptyMain(nodes, frames[0], locals[0]);
          TreeIn(nodes, frames[0], locals[0]);
          TreeIn(nodes, varMain, main);
          EmptyMain(nodes, varMain, main);
        }
      }
      AbsIs(nodes, main, locals);
      Parts();
    }

    /** Global: mems are what malloc answers. */
    method Global(names: seq<seq<byte>>, mems: seq<int>)
      requires Valid() && |mems| == |names| && forall k :: 0 <= k < |names| ==> IsName(names[k])
      requires forall k :: 0 <= k < |mems| ==> mems[k] > 0 && mems[k] !in nodes
      requires forall j, k :: 0 <= j < k < |mems| ==> mems[j] != mems[k]
      modifies this
      ensures Valid() && Now() == Step(old(Now()), Declare(names))
    {
      hide *;
      Parts();
      DeclareIs(Now(), names);
      AbsIs(nodes, main, locals);
      OkParts(nodes, MainRoot(), main, frames, locals);
      if frames == [] { return; }
      assert names[0..] == names;
      for k := 0 to |names|
        invariant Valid() && frames != [] && DeclareIn(Now(), names[k..]) == DeclareIn(old(Now()), names)
        invariant forall j :: k <= j < |mems| ==> mems[j] !in nodes
      {
        Parts();
        AbsIs(nodes, main, locals);
        OkParts(nodes, MainRoot(), main, frames, locals);
        DeclareIs(Now(), names[k..]);
        assert names[k..][1..] == names[k + 1..] && names[k..][0] == names[k];
        var t := Get(names[k]);
        Parts();
        ModeIs();
        if t == 0 {
          ZeroIs();
          Set(names[k], Control.Value(Control.LNUMBER, 0, 0.0, "0"), 4, 0, mems[k]);
        }
      }
      Parts();
      DeclareIs(Now(), names[|names|..]);
    }

    method PtrPush(v: int)
      modifies `ptrs
      ensures ptrs == [v] + old(ptrs)
    {
      ptrs := [v] + ptrs;
    }

    method PtrPop() returns (v: int)
      modifies `ptrs
      ensures if old(ptrs) == [] then v == 0 && ptrs == [] else v == old(ptrs)[0] && ptrs == old(ptrs)[1..]
    {
      if ptrs == [] {
        return 0;
      }
      v, ptrs := ptrs[0], ptrs[1..];
    }

    /** A visit of SecureVar: a GET argument whose name the pattern matches is made inaccessible. */
    method Visit(v: int, hit: seq<byte> -> bool, ghost before: Nodes, ghost log: seq<int>)
      requires SecuredNodes(before, nodes, log, hit) && v in before
      modifies `nodes
      ensures SecuredNodes(before, nodes, log + [v], hit)
    {
      if hit(nodes[v].name) && nodes[v].flag == -1 {
        nodes := nodes[v := nodes[v].(flag := -2)];
      }
    }

    /** SecureVar: every node of the current tree is visited once, in the order of the names. */
    method SecureVar(hit: seq<byte> -> bool) returns (ghost log: seq<int>)
      requires Valid() && ptrs == []
      modifies `nodes, `ptrs
      ensures Valid() && Settled() == old(Settled()) && ptrs == []
      ensures log == Inorder(if frames == [] || !Settled() then main else locals[0])
      ensures Now() == Step(old(Now()), Secure(hit))
    {
      hide *;
      Parts();
      OkParts(nodes, MainRoot(), main, frames, locals);
      ghost var before, root := nodes, MainRoot();
      ghost var cur, gs: seq<Tree> := if frames == [] || varTop != frames[0] then main else locals[0], [];
      ghost var tree, order := cur, Inorder(cur);
      log := [];
      EnterStart(nodes, varTop, cur);
      NoneSecured(nodes, hit);
      var v := varTop;
      while v != 0
        modifies `nodes, `ptrs
        invariant Entering(before, v, cur, ptrs, gs, log, order) && SecuredNodes(before, nodes, log, hit)
        decreases |order| - |log|, cur
      {
        EnterLeft(before, v, cur, ptrs, gs, log, order);
        LogShort(before, v, cur, ptrs, gs, log, order);
        Links(before, nodes, log, hit, v);
        if nodes[v].left != 0 {
          PtrPush(v);
          v := nodes[v].left;
          cur, gs := cur.left, [cur] + gs;
          continue;
        }
        ghost var seen := |log|;
        Visit(v, hit, before, log);
        log := log + [v];
        while true // the label `right`
          modifies `nodes, `ptrs
          invariant Leaving(before, v, cur, ptrs, gs, log, order) && SecuredNodes(before, nodes, log, hit)
            && |log| > seen
          decreases |order| - |log|
        {
          LeaveRight(before, v, cur, ptrs, gs, log, order);
          Links(before, nodes, log, hit, v);
          if nodes[v].right != 0 {
            v, cur := nodes[v].right, cur.right;
            break;
          }
          v := PtrPop();
          if v == 0 {
            cur, gs := Leaf, [];
            EnterNothing(before, order);
            break;
          }
          Visit(v, hit, before, log);
          log, cur, gs := log + [v], gs[0], gs[1..];
          while nodes[v].right == 0
            modifies `nodes, `ptrs
            invariant v in nodes && v != 0
            invariant Leaving(before, v, cur, ptrs, gs, log, order) && SecuredNodes(before, nodes, log, hit)
              && |log| > seen
            decreases |order| - |log|
          {
            LeaveRight(before, v, cur, ptrs, gs, log, order);
            Links(before, nodes, log, hit, v);
            v := PtrPop();
            if v == 0 { break; }
            Visit(v, hit, before, log);
            log, cur, gs := log + [v], gs[0], gs[1..];
          }
          if v == 0 {
            cur, gs := Leaf, [];
            EnterNothing(before, order);
            break;
          }
        }
      }
      EnterEnd(before, cur, ptrs, gs, log, order);
      SecureIs(AbsOf(before, main, locals), old(Settled()), hit);
      AbsIs(before, main, locals);
      if frames == [] || varTop != frames[0] {
        SecureMain(before, nodes, root, main, frames, locals, hit);
      } else {
        SecureLocal(before, nodes, root, main, frames, locals, hit);
      }
      Parts();
    }
  }

  lemma LinkedIntro(nodes: Nodes, nodes': Nodes, ot: int, name: seq<byte>, a: int, node: Node)
    requires a !in nodes && a > 0 && node.name == name && node.left == 0 == node.right && IsName(name) && a in nodes'
      && nodes'[a] == node
    requires forall b :: b in nodes && b != ot ==> b in nodes' && nodes'[b] == nodes[b]
    requires ot in nodes ==>
      ot in nodes' && nodes'[ot] == if Less(name, nodes[ot].name) then nodes[ot].(left := a) else nodes[ot].(right := a)
    ensures Linked(nodes, nodes', ot, name, a, node)
  {
    hide Less, IsName;
  }

  lemma OkParts(nodes: Nodes, root: int, main: Tree, frames: seq<int>, locals: seq<Tree>)
    requires Ok(nodes, root, main, frames, locals)
    ensures 0 !in nodes && IsTree(nodes, root, main) && |locals| == |frames|
    ensures frames != [] ==> IsTree(nodes, frames[0], locals[0])
  {
    hide IsTree, Vars, Addrs;
  }

  lemma AbsIs(nodes: Nodes, main: Tree, locals: seq<Tree>)
    ensures var s := AbsOf(nodes, main, locals);
      s.main == Vars(nodes, main) && |s.locals| == |locals| && forall k :: 0 <= k < |locals| ==>
        s.locals[k] == Vars(nodes, locals[k])
  {
    hide Vars;
  }

  lemma SetIs(s: State, name: seq<byte>, v: Control.Value, mode: int, inc: int)
    ensures SetStep(s, name, v, mode, inc) ==
      if s.locals == [] then s.(main := Put(s.main, name, v, mode, inc))
      else if IsStub(s, name) && mode != GLOBAL then
        if s.main == map[] then s else s.(main := Put(s.main, name, v, mode, inc))
      else s.(locals := [Put(s.locals[0], name, v, mode, inc)] + s.locals[1..])
  {
    hide Put, IsStub;
  }

  /** Whether the name is a stub can be seen at its node. */
  lemma StubIs(nodes: Nodes, main: Tree, locals: seq<Tree>, name: seq<byte>)
    requires locals != []
    ensures IsStub(AbsOf(nodes, main, locals), name) <==>
      name in Vars(nodes, locals[0]) && Vars(nodes, locals[0])[name].scope == GLOBAL
    ensures AbsOf(nodes, main, locals).locals != [] && AbsOf(nodes, main, locals).main == Vars(nodes, main)
    ensures AbsOf(nodes, main, locals).locals[0] == Vars(nodes, locals[0])
    ensures forall n: Node :: VarOf(n).scope == n.scope
  {
    hide Vars;
  }

  lemma EmptyMain(nodes: Nodes, root: int, main: Tree)
    requires IsTree(nodes, root, main)
    ensures main.Leaf? <==> Vars(nodes, main) == map[]
  {
    TreeIn(nodes, root, main);
    if main.Fork? { assert nodes[main.at].name in Names(nodes, main); }
  }

  /** A function that has a stub has a tree. */
  lemma StubRoot(nodes: Nodes, frames: seq<int>, locals: seq<Tree>, name: seq<byte>)
    requires frames != [] && locals != [] && IsTree(nodes, frames[0], locals[0]) && name in Vars(nodes, locals[0])
    ensures frames[0] != 0
  {
    VarsAt(nodes, frames[0], locals[0], name);
  }

  lemma PutMain(nodes: Nodes, nodes': Nodes, root: int, main: Tree, frames: seq<int>, locals: seq<Tree>,
                name: seq<byte>, v: Control.Value, mode: int, inc: int, mem: int)
    requires Ok(nodes, root, main, frames, locals) && PutNodes(nodes, nodes', main, name, v, mode, inc, mem)
    requires mem > 0 && mem !in nodes
    ensures var main' := PutTree(nodes, main, name, mem);
      && Ok(nodes', if main.Leaf? then mem else root, main', frames, locals)
      && AbsOf(nodes', main', locals) == AbsOf(nodes, main, locals).(main := Put(Vars(nodes, main), name, v, mode, inc))
      && forall b :: b in nodes' ==> b in nodes || b == mem
  {
    hide *;
    OkParts(nodes, root, main, frames, locals);
    PutVars(nodes, nodes', root, main, name, v, mode, inc, mem);
    PutKeys(nodes, nodes', main, name, v, mode, inc, mem);
    MainChanged(nodes, nodes', root, if main.Leaf? then mem else root, main, PutTree(nodes, main, name, mem), frames,
      locals, mem);
  }

  lemma PutKeys(nodes: Nodes, nodes': Nodes, t: Tree, name: seq<byte>, v: Control.Value, mode: int, inc: int, mem: int)
    requires PutNodes(nodes, nodes', t, name, v, mode, inc, mem) && 0 !in nodes && mem > 0
    ensures 0 !in nodes' && forall b :: b in nodes' ==> b in nodes || b == mem
  {
    hide Search, LastOn, Linked;
    assert forall b :: b in nodes' <==> b in nodes'.Keys;
  }

  lemma PutLocal(nodes: Nodes, nodes': Nodes, root: int, main: Tree, frames': seq<int>, locals: seq<Tree>,
          frames: seq<int>, top: int,
                 name: seq<byte>, v: Control.Value, mode: int, inc: int, mem: int)
    requires Ok(nodes, root, main, frames, locals) && frames != []
      && PutNodes(nodes, nodes', locals[0], name, v, mode, inc, mem)
    requires mem > 0 && mem !in nodes && top == (if locals[0].Leaf? then mem else frames[0])
    requires frames' == if locals[0].Leaf? && frames[0] == 0 then frames[0 := mem] else frames
    ensures var locals' := [PutTree(nodes, locals[0], name, mem)] + locals[1..];
      && Ok(nodes', root, main, frames', locals') && frames'[0] == top
      && AbsOf(nodes', main, locals') ==
           AbsOf(nodes, main, locals).(locals := [Put(Vars(nodes, locals[0]), name, v, mode, inc)]
             + AbsOf(nodes, main, locals).locals[1..])
      && forall b :: b in nodes' ==> b in nodes || b == mem
  {
    hide *;
    OkParts(nodes, root, main, frames, locals);
    TreeIn(nodes, frames[0], locals[0]);
    PutVars(nodes, nodes', frames[0], locals[0], name, v, mode, inc, mem);
    PutKeys(nodes, nodes', locals[0], name, v, mode, inc, mem);
    LocalChanged(nodes, nodes', root, main, frames, locals, top, PutTree(nodes, locals[0], name, mem), mem);
    assert frames' == [top] + frames[1..];
  }

  /** Setting a variable in a tree that is empty, and that nothing leads to afterwards. */
  lemma Orphan(nodes: Nodes, nodes': Nodes, root: int, main: Tree, frames: seq<int>, locals: seq<Tree>,
               name: seq<byte>, v: Control.Value, mode: int, inc: int, mem: int)
    requires Ok(nodes, root, main, frames, locals) && main.Leaf?
      && PutNodes(nodes, nodes', main, name, v, mode, inc, mem)
    requires mem > 0 && mem !in nodes
    ensures Ok(nodes', root, main, frames, locals) && AbsOf(nodes', main, locals) == AbsOf(nodes, main, locals)
    ensures forall b :: b in nodes' ==> b in nodes || b == mem
  {
    hide *;
    OkParts(nodes, root, main, frames, locals);
    PutKeys(nodes, nodes', main, name, v, mode, inc, mem);
    StepDown(nodes, main, name);
    PutNodesIs(nodes, nodes', main, name, v, mode, inc, mem);
    LinkedParts(nodes, nodes', 0, name, mem, Node(name, v, 0, 0, false, mode, inc));
    NothingChanged(nodes, nodes', root, main, frames, locals);
  }

  lemma ZeroIs()
    ensures ZERO == Control.Value(Control.LNUMBER, 0, 0.0, "0")
  {
  }

  lemma ModeIs()
    ensures GLOBAL == 4
  {
  }

  lemma LookIs(m: map<seq<byte>, Var>, name: seq<byte>)
    ensures Look(m, name) == if name in m && Visible(m[name]) then Something(m[name].value) else Nothing
  {
    hide Visible;
  }

  lemma VisibleIs(v: Var)
    ensures Visible(v) <==> !v.deleted && v.flag != -2
  {
  }

  lemma GetIs(s: State, name: seq<byte>)
    ensures s.locals == [] ==> GetStep(s, name) == Look(s.main, name)
    ensures s.locals != [] && IsStub(s, name) && Visible(s.locals[0][name]) ==> GetStep(s, name) == Look(s.main, name)
    ensures s.locals != [] && !(IsStub(s, name) && Visible(s.locals[0][name])) ==>
      GetStep(s, name) == Look(s.locals[0], name)
  {
    hide Look, Visible;
  }

  lemma UnsetIs(s: State, name: seq<byte>)
    ensures GetStep(s, name).Nothing? ==> UnsetStep(s, name) == s
    ensures !GetStep(s, name).Nothing? && (s.locals == [] || IsStub(s, name)) && name in s.main ==>
      UnsetStep(s, name) == s.(main := Gone(s.main, name))
    ensures !GetStep(s, name).Nothing? && s.locals != [] && !IsStub(s, name) && name in s.locals[0] ==>
      UnsetStep(s, name) == s.(locals := [Gone(s.locals[0], name)] + s.locals[1..])
  {
    hide GetStep, Gone, IsStub;
  }

  /** The tree of a function and that of the main program begin at different nodes. */
  lemma OtherRoot(nodes: Nodes, root: int, main: Tree, top: int, t: Tree, frames: seq<int>, locals: seq<Tree>)
    requires Ok(nodes, root, main, frames, locals) && locals != [] && t == locals[0] && frames[0] == top && t.Fork?
    ensures top != root
  {
    TreeIn(nodes, root, main);
    TreeIn(nodes, top, t);
    hide Vars, IsTree;
  }

  lemma UnsetMain(nodes: Nodes, nodes': Nodes, root: int, main: Tree, frames: seq<int>, locals: seq<Tree>, t: int)
    requires Ok(nodes, root, main, frames, locals) && t in Addrs(main) && t in nodes
    requires nodes' == nodes[t := nodes[t].(deleted := true, value := nodes[t].value.(strval := ""))]
    ensures nodes[t].name in Vars(nodes, main) && Ok(nodes', root, main, frames, locals) && nodes'.Keys == nodes.Keys
    ensures AbsOf(nodes', main, locals) == AbsOf(nodes, main, locals).(main := Gone(Vars(nodes, main), nodes[t].name))
  {
    hide *;
    OkParts(nodes, root, main, frames, locals);
    TreeIn(nodes, root, main);
    VarsSet(nodes, nodes', root, main, t);
    SearchOnly(nodes, root, main, t);
    VarsAt(nodes, root, main, nodes[t].name);
    VarOfIs(nodes[t]);
    VarOfIs(nodes'[t]);
    GoneIs(Vars(nodes, main), nodes[t].name);
    MainChanged(nodes, nodes', root, root, main, main, frames, locals, 0);
  }

  lemma GoneIs(m: map<seq<byte>, Var>, name: seq<byte>)
    requires name in m
    ensures Gone(m, name) == m[name := Var(m[name].value.(strval := ""), true, m[name].scope, m[name].flag)]
  {
  }

  lemma UnsetLocal(nodes: Nodes, nodes': Nodes, root: int, main: Tree, frames: seq<int>, locals: seq<Tree>, t: int)
    requires Ok(nodes, root, main, frames, locals) && locals != [] && t in Addrs(locals[0]) && t in nodes
    requires nodes' == nodes[t := nodes[t].(deleted := true, value := nodes[t].value.(strval := ""))]
    ensures nodes[t].name in Vars(nodes, locals[0]) && Ok(nodes', root, main, frames, locals)
      && nodes'.Keys == nodes.Keys
    ensures AbsOf(nodes', main, locals) ==
      AbsOf(nodes, main, locals).(locals := [Gone(Vars(nodes, locals[0]), nodes[t].name)]
        + AbsOf(nodes, main, locals).locals[1..])
  {
    hide *;
    OkParts(nodes, root, main, frames, locals);
    var tree := locals[0];
    TreeIn(nodes, frames[0], tree);
    VarsSet(nodes, nodes', frames[0], tree, t);
    SearchOnly(nodes, frames[0], tree, t);
    VarsAt(nodes, frames[0], tree, nodes[t].name);
    VarOfIs(nodes[t]);
    VarOfIs(nodes'[t]);
    GoneIs(Vars(nodes, tree), nodes[t].name);
    LocalChanged(nodes, nodes', root, main, frames, locals, frames[0], tree, 0);
    assert [frames[0]] + frames[1..] == frames && [tree] + locals[1..] == locals;
  }

  lemma PushOk(nodes: Nodes, root: int, main: Tree, frames: seq<int>, locals: seq<Tree>)
    requires Ok(nodes, root, main, frames, locals)
    ensures Ok(nodes, root, main, [0] + frames, [Leaf] + locals)
    ensures AbsOf(nodes, main, [Leaf] + locals) == PushStep(AbsOf(nodes, main, locals))
  {
    hide Vars;
    var more := [Leaf] + locals;
    assert Vars(nodes, Leaf) == map[] by { NoVars(nodes); }
    assert AbsOf(nodes, main, more).locals == [map[]] + AbsOf(nodes, main, locals).locals;
  }

  lemma NoVars(nodes: Nodes)
    ensures Vars(nodes, Leaf) == map[]
  {
  }

  lemma PopOk(nodes: Nodes, root: int, main: Tree, frames: seq<int>, locals: seq<Tree>)
    requires Ok(nodes, root, main, frames, locals)
    ensures locals != [] ==> Ok(nodes, root, main, frames[1..], locals[1..])
    ensures AbsOf(nodes, main, if locals == [] then [] else locals[1..]) == PopStep(AbsOf(nodes, main, locals))
  {
    hide Vars, IsTree, Addrs;
  }

  // ----- securing variables -----

  /** Memory when the nodes of log have been visited. */
  ghost predicate SecuredNodes(nodes: Nodes, nodes': Nodes, log: seq<int>, hit: seq<byte> -> bool) {
    && nodes'.Keys == nodes.Keys
    && forall a :: a in nodes ==>
         nodes'[a] == if a in log && hit(nodes[a].name) && nodes[a].flag == -1 then nodes[a].(flag := HIDDEN)
           else nodes[a]
  }

  lemma NoneSecured(nodes: Nodes, hit: seq<byte> -> bool)
    ensures SecuredNodes(nodes, nodes, [], hit)
  {
  }

  lemma Links(nodes: Nodes, nodes': Nodes, log: seq<int>, hit: seq<byte> -> bool, v: int)
    requires SecuredNodes(nodes, nodes', log, hit) && v in nodes
    ensures v in nodes' && nodes'[v].left == nodes[v].left && nodes'[v].right == nodes[v].right
  {
  }

  lemma LogShort(nodes: Nodes, v: int, cur: Tree, ptrs: seq<int>, gs: seq<Tree>, log: seq<int>, order: seq<int>)
    requires Entering(nodes, v, cur, ptrs, gs, log, order) && cur.Fork?
    ensures |log| < |order|
  {
    hide IsTree;
  }

  lemma SecureIs(s: State, settled: bool, hit: seq<byte> -> bool)
    ensures Step(Table(s, settled, false), Secure(hit)) == Table(
      if s.locals == [] || !settled then s.(main := SecureMap(s.main, hit))
      else s.(locals := [SecureMap(s.locals[0], hit)] + s.locals[1..]), settled, false)
  {
    hide SecureMap;
  }

  lemma AssignIs(t: Table, name: seq<byte>, v: Control.Value, inc: int)
    ensures !t.hung && !Hangs(t, name) ==> Step(t, Assign(name, v, inc)) == SetIn(t, name, v, 0, inc)
  {
    hide SetIn, Hangs;
  }

  lemma SetInIs(t: Table, name: seq<byte>, v: Control.Value, mode: int, inc: int)
    ensures SetIn(t, name, v, mode, inc) == Table(
      if t.settled then SetStep(t.s, name, v, mode, inc) else t.s.(main := Put(t.s.main, name, v, mode, inc)),
      t.settled, t.hung)
  {
    hide SetStep, Put;
  }

  lemma HangsIs(t: Table, name: seq<byte>)
    ensures Hangs(t, name) <==>
      && t.s.locals != [] && name in t.s.main && t.s.main[name].scope == GLOBAL
      && (t.settled ==> IsStub(t.s, name))
  {
    hide IsStub;
  }

  lemma ReadIs(t: Table, name: seq<byte>)
    ensures Read(t, name) == if t.settled then GetStep(t.s, name) else Look(t.s.main, name)
  {
    hide GetStep, Look;
  }

  lemma DeleteIs(t: Table, name: seq<byte>)
    requires !t.hung
    ensures t.settled ==> Step(t, Delete(name)) == Table(UnsetStep(t.s, name), true, false)
    ensures !t.settled && Look(t.s.main, name).Nothing? ==> Step(t, Delete(name)) == t
    ensures !t.settled && Look(t.s.main, name).Something? ==>
      name in t.s.main && Step(t, Delete(name)) == Table(t.s.(main := Gone(t.s.main, name)), false, false)
  {
    hide UnsetStep, Gone, Visible;
  }

  lemma CallIs(t: Table)
    requires !t.hung
    ensures Step(t, Call) == Table(PushStep(t.s), true, false)
  {
  }

  lemma ReturnIs(t: Table)
    requires !t.hung
    ensures var s := PopStep(t.s);
      Step(t, Return) ==
        if t.s.locals == [] then t
        else Table(s, s.locals == [] || s.locals[0] != map[] || s.main == map[], false)
  {
  }

  lemma DeclareIs(t: Table, names: seq<seq<byte>>)
    ensures !t.hung ==> Step(t, Declare(names)) == DeclareIn(t, names)
    ensures t.s.locals == [] || names == [] ==> DeclareIn(t, names) == t
    ensures t.s.locals != [] && names != [] ==>
      DeclareIn(t, names) ==
        DeclareIn(if Read(t, names[0]).Nothing? then SetIn(t, names[0], ZERO, GLOBAL, 0) else t, names[1..])
  {
    hide Read, SetIn;
  }

  /** All nodes of a tree have been visited. */
  lemma SecuredTree(nodes: Nodes, nodes': Nodes, root: int, t: Tree, hit: seq<byte> -> bool)
    requires IsTree(nodes, root, t) && SecuredNodes(nodes, nodes', Inorder(t), hit)
    ensures IsTree(nodes', root, t) && Vars(nodes', t) == SecureMap(Vars(nodes, t), hit)
    ensures forall b :: b in nodes && b !in Addrs(t) ==> b in nodes' && nodes'[b] == nodes[b]
    ensures nodes'.Keys == nodes.Keys
  {
    hide *;
    SecuredParts(nodes, nodes', root, t, hit);
    TreeIn(nodes, root, t);
    TreeKept(nodes, nodes', root, t);
    forall n ensures n in Vars(nodes', t) <==> n in Vars(nodes, t) {
      SearchKept(nodes, nodes', t, n);
      VarsAt(nodes, root, t, n);
      VarsAt(nodes', root, t, n);
    }
    SecureMapIs(Vars(nodes, t), hit);
    forall n | n in Vars(nodes, t) ensures Vars(nodes', t)[n] == SecureMap(Vars(nodes, t), hit)[n] {
      SearchKept(nodes, nodes', t, n);
      VarsAt(nodes, root, t, n);
      VarsAt(nodes', root, t, n);
      var a := Search(nodes, t, n);
      VarOfIs(nodes[a]);
      VarOfIs(nodes'[a]);
    }
    assert Vars(nodes', t) == SecureMap(Vars(nodes, t), hit);
  }

  lemma SecureMapIs(m: map<seq<byte>, Var>, hit: seq<byte> -> bool)
    ensures SecureMap(m, hit).Keys == m.Keys
    ensures forall n :: n in m ==>
      SecureMap(m, hit)[n] == if hit(n) && m[n].flag == -1 then Var(m[n].value, m[n].deleted, m[n].scope, -2) else m[n]
  {
  }

  lemma SecuredParts(nodes: Nodes, nodes': Nodes, root: int, t: Tree, hit: seq<byte> -> bool)
    requires SecuredNodes(nodes, nodes', Inorder(t), hit)
    ensures nodes'.Keys == nodes.Keys
    ensures forall b :: b in nodes && b !in Addrs(t) ==> b in nodes' && nodes'[b] == nodes[b]
    ensures forall a :: a in nodes && a in Addrs(t) ==>
      && a in nodes' && nodes'[a].name == nodes[a].name && nodes'[a].left == nodes[a].left
        && nodes'[a].right == nodes[a].right
      && nodes'[a] == if hit(nodes[a].name) && nodes[a].flag == -1 then nodes[a].(flag := -2) else nodes[a]
  {
    hide Inorder, Addrs;
    forall a ensures a in Inorder(t) <==> a in Addrs(t) { InorderHas(t, a); }
  }

  lemma SecureMain(nodes: Nodes, nodes': Nodes, root: int, main: Tree, frames: seq<int>, locals: seq<Tree>,
          hit: seq<byte> -> bool)
    requires Ok(nodes, root, main, frames, locals) && SecuredNodes(nodes, nodes', Inorder(main), hit)
    ensures Ok(nodes', root, main, frames, locals)
    ensures AbsOf(nodes', main, locals) == AbsOf(nodes, main, locals).(main := SecureMap(Vars(nodes, main), hit))
  {
    hide *;
    OkParts(nodes, root, main, frames, locals);
    SecuredTree(nodes, nodes', root, main, hit);
    MainChanged(nodes, nodes', root, root, main, main, frames, locals, 0);
  }

  lemma SecureLocal(nodes: Nodes, nodes': Nodes, root: int, main: Tree, frames: seq<int>, locals: seq<Tree>,
          hit: seq<byte> -> bool)
    requires Ok(nodes, root, main, frames, locals) && locals != []
      && SecuredNodes(nodes, nodes', Inorder(locals[0]), hit)
    ensures Ok(nodes', root, main, frames, locals)
    ensures AbsOf(nodes', main, locals) ==
      AbsOf(nodes, main, locals).(locals := [SecureMap(Vars(nodes, locals[0]), hit)]
        + AbsOf(nodes, main, locals).locals[1..])
  {
    hide *;
    OkParts(nodes, root, main, frames, locals);
    SecuredTree(nodes, nodes', frames[0], locals[0], hit);
    LocalChanged(nodes, nodes', root, main, frames, locals, frames[0], locals[0], 0);
    assert [frames[0]] + frames[1..] == frames && [locals[0]] + locals[1..] == locals;
  }
}
