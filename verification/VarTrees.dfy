/** The symbol trees of src/var.c: binary search trees of names, walked byte by byte.
    Memory is a map from the address of a node to the node; 0 is the null pointer. */
module VarTrees {
  import RegexSyntax
  import Control

  type byte = RegexSyntax.byte

  /** flag: how the variable was set last, or -1 for a GET argument and -2 for one that has been made
      inaccessible.  scope: 0, or 4 for the stub of a global variable. */
  datatype Node = Node(name: seq<byte>, value: Control.Value, left: int, right: int, deleted: bool, scope: int,
          flag: int)

  type Nodes = map<int, Node>

  /** The shape of a tree: the addresses of its nodes. */
  datatype Tree = Leaf | Fork(left: Tree, at: int, right: Tree)

  // ----- names -----

  /** A C string holds no NUL. */
  predicate IsName(s: seq<byte>) {
    forall k :: 0 <= k < |s| ==> s[k] != 0
  }

  /** Byte i of the C string s. */
  function ByteAt(s: seq<byte>, i: nat): byte {
    if i < |s| then s[i] else 0
  }

  /** Lexicographic order. */
  predicate Less(s: seq<byte>, t: seq<byte>) {
    t != [] && (s == [] || s[0] < t[0] || (s[0] == t[0] && Less(s[1..], t[1..])))
  }

  lemma {:induction false} LessTrans(s: seq<byte>, t: seq<byte>, u: seq<byte>)
    requires Less(s, t) && Less(t, u)
    ensures Less(s, u)
  {
    if s != [] && s[0] == t[0] == u[0] { LessTrans(s[1..], t[1..], u[1..]); }
  }

  lemma {:induction false} LessNot(s: seq<byte>, t: seq<byte>)
    requires Less(s, t)
    ensures s != t && !Less(t, s)
  {
    if s != [] && s[0] == t[0] { LessNot(s[1..], t[1..]); }
  }

  /** The first byte in which two names differ decides. */
  lemma {:induction false} LessAt(s: seq<byte>, t: seq<byte>, i: nat)
    requires i <= |s| && i <= |t| && s[..i] == t[..i] && IsName(s) && IsName(t)
    ensures ByteAt(s, i) < ByteAt(t, i) ==> Less(s, t)
    ensures ByteAt(s, i) > ByteAt(t, i) ==> Less(t, s)
    ensures ByteAt(s, i) == ByteAt(t, i) ==> (i < |s| && i < |t| && s[..i + 1] == t[..i + 1]) || s == t
    decreases i
  {
    if i > 0 {
      assert s[0] == s[..i][0] == t[..i][0] == t[0];
      assert s[1..][..i - 1] == s[..i][1..] && t[1..][..i - 1] == t[..i][1..];
      LessAt(s[1..], t[1..], i - 1);
      if i < |s| && i < |t| && s[i] == t[i] {
        assert s[..i + 1] == s[..i] + [s[i]] && t[..i + 1] == t[..i] + [t[i]];
      }
      assert s == [s[0]] + s[1..] && t == [t[0]] + t[1..];
    } else if s != [] && t != [] && s[0] == t[0] {
      assert s[..1] == [s[0]] && t[..1] == [t[0]];
    }
  }

  // ----- trees in memory -----

  function Addrs(t: Tree): set<int> {
    if t.Leaf? then {} else Addrs(t.left) + {t.at} + Addrs(t.right)
  }

  /** From root one finds the tree t, and its names are in order. */
  ghost predicate IsTree(nodes: Nodes, root: int, t: Tree)
    decreases t
  {
    match t
    case Leaf => root == 0
    case Fork(l, a, r) =>
      && root == a && a > 0 && a in nodes && IsName(nodes[a].name)
      && IsTree(nodes, nodes[a].left, l) && IsTree(nodes, nodes[a].right, r)
      && a !in Addrs(l) && a !in Addrs(r) && Addrs(l) !! Addrs(r)
      && (forall b :: b in Addrs(l) ==> b in nodes && Less(nodes[b].name, nodes[a].name))
      && (forall b :: b in Addrs(r) ==> b in nodes && Less(nodes[a].name, nodes[b].name))
  }

  lemma {:induction false} TreeIn(nodes: Nodes, root: int, t: Tree)
    requires IsTree(nodes, root, t)
    ensures (forall a :: a in Addrs(t) ==> a in nodes && a > 0 && IsName(nodes[a].name))
      && (root != 0 ==> root in Addrs(t))
    ensures root == 0 <==> t.Leaf?
    decreases t
  {
    if t.Fork? {
      TreeIn(nodes, nodes[t.at].left, t.left);
      TreeIn(nodes, nodes[t.at].right, t.right);
    }
  }

  /** The tree depends on its own nodes only, and on their names and links only. */
  lemma {:induction false} TreeKept(nodes: Nodes, nodes': Nodes, root: int, t: Tree)
    requires IsTree(nodes, root, t)
    requires forall a :: a in Addrs(t) && a in nodes ==>
      a in nodes' && nodes'[a].name == nodes[a].name && nodes'[a].left == nodes[a].left
        && nodes'[a].right == nodes[a].right
    ensures IsTree(nodes', root, t)
    decreases t
  {
    if t.Fork? {
      TreeKept(nodes, nodes', nodes[t.at].left, t.left);
      TreeKept(nodes, nodes', nodes[t.at].right, t.right);
    }
  }

  // ----- searching -----

  /** The node with the name, or 0. */
  function Search(nodes: Nodes, t: Tree, name: seq<byte>): int
    decreases t
  {
    match t
    case Leaf => 0
    case Fork(l, a, r) =>
      if a !in nodes then 0
      else if name == nodes[a].name then a
      else if Less(name, nodes[a].name) then Search(nodes, l, name)
      else Search(nodes, r, name)
  }

  /** The last node that the search for the name meets, or 0. */
  function LastOn(nodes: Nodes, t: Tree, name: seq<byte>): int
    decreases t
  {
    match t
    case Leaf => 0
    case Fork(l, a, r) =>
      if a !in nodes || name == nodes[a].name then a
      else
        var sub := if Less(name, nodes[a].name) then l else r;
        if sub.Leaf? then a else LastOn(nodes, sub, name)
  }

  lemma {:induction false} SearchFinds(nodes: Nodes, root: int, t: Tree, name: seq<byte>)
    requires IsTree(nodes, root, t)
    ensures var a := Search(nodes, t, name); a != 0 ==> a in Addrs(t) && a in nodes && nodes[a].name == name
    ensures Search(nodes, t, name) == 0 ==> forall a :: a in Addrs(t) ==> a in nodes && nodes[a].name != name
    decreases t
  {
    if t.Fork? {
      var a := t.at;
      TreeIn(nodes, root, t);
      SearchFinds(nodes, nodes[a].left, t.left, name);
      SearchFinds(nodes, nodes[a].right, t.right, name);
      forall b | b in Addrs(t.left) && nodes[b].name == name ensures Less(name, nodes[a].name) { }
      forall b | b in Addrs(t.right) && nodes[b].name == name
        ensures !Less(name, nodes[a].name) && name != nodes[a].name {
        LessNot(nodes[a].name, name);
      }
      forall b | b in Addrs(t.left) && nodes[b].name == name
        ensures name != nodes[a].name { LessNot(name, nodes[a].name); }
    }
  }

  /** Names are unique. */
  lemma SearchOnly(nodes: Nodes, root: int, t: Tree, a: int)
    requires IsTree(nodes, root, t) && a in Addrs(t)
    ensures a in nodes && Search(nodes, t, nodes[a].name) == a
    decreases t
  {
    TreeIn(nodes, root, t);
    if a in Addrs(t.left) {
      SearchOnly(nodes, nodes[t.at].left, t.left, a);
      LessNot(nodes[a].name, nodes[t.at].name);
    } else if a in Addrs(t.right) {
      SearchOnly(nodes, nodes[t.at].right, t.right, a);
      LessNot(nodes[t.at].name, nodes[a].name);
    }
  }

  /** The walk that SetVar and GetVar have in common: t is the node found, or 0; ot and oi tell where it
      has been last. */
  method Walk(nodes: Nodes, root: int, s: seq<byte>, ghost tree: Tree) returns (t: int, ot: int, oi: nat)
    requires IsTree(nodes, root, tree) && IsName(s)
    ensures t == Search(nodes, tree, s)
    ensures t == 0 ==> ot == LastOn(nodes, tree, s)
    ensures t == 0 && ot != 0 ==>
      ot in nodes && (ByteAt(s, oi) < ByteAt(nodes[ot].name, oi) <==> Less(s, nodes[ot].name)) && s != nodes[ot].name
  {
    hide Less, Search, LastOn;
    t, ot, oi := root, 0, 0;
    ghost var cur := tree;
    var i: nat := 0;
    StepDown(nodes, tree, s);
    while t != 0
      invariant IsTree(nodes, t, cur) && Search(nodes, cur, s) == Search(nodes, tree, s)
      invariant LastOn(nodes, tree, s) == if cur.Leaf? then ot else LastOn(nodes, cur, s)
      invariant i > 0 ==> t != 0
      invariant t != 0 ==>
        t in nodes && IsName(nodes[t].name) && i <= |s| && i <= |nodes[t].name| && s[..i] == nodes[t].name[..i]
      invariant i > 0 ==> s != nodes[t].name
      invariant t == 0 && ot != 0 ==>
        ot in nodes && (ByteAt(s, oi) < ByteAt(nodes[ot].name, oi) <==> Less(s, nodes[ot].name)) && s != nodes[ot].name
      decreases cur, |s| - i
    {
      ot, oi := t, i;
      StepDown(nodes, cur, s);
      var name := nodes[t].name;
      LessAt(s, name, i);
      if ByteAt(s, i) < ByteAt(name, i) {
        LessNot(s, name);
        t, i := nodes[t].left, 0;
        cur := cur.left;
        Entered(nodes, t, cur, s);
      } else if ByteAt(s, i) > ByteAt(name, i) {
        LessNot(name, s);
        t, i := nodes[t].right, 0;
        cur := cur.right;
        Entered(nodes, t, cur, s);
      } else {
        if i == 0 && s == name {
          return t, ot, oi;
        }
        i := i + 1;
      }
    }
    StepDown(nodes, cur, s);
  }

  lemma Entered(nodes: Nodes, root: int, t: Tree, s: seq<byte>)
    requires IsTree(nodes, root, t)
    ensures root != 0 ==> root in nodes && IsName(nodes[root].name) && s[..0] == nodes[root].name[..0]
    ensures root == 0 <==> t.Leaf?
  {
  }

  /** One step of the functions. */
  lemma StepDown(nodes: Nodes, t: Tree, s: seq<byte>)
    ensures t.Leaf? ==> Search(nodes, t, s) == 0 && LastOn(nodes, t, s) == 0
    ensures t.Fork? && t.at in nodes && s == nodes[t.at].name ==>
      Search(nodes, t, s) == t.at && LastOn(nodes, t, s) == t.at
    ensures t.Fork? && t.at in nodes && s != nodes[t.at].name ==>
      var sub := if Less(s, nodes[t.at].name) then t.left else t.right;
      && Search(nodes, t, s) == Search(nodes, sub, s)
      && LastOn(nodes, t, s) == if sub.Leaf? then t.at else LastOn(nodes, sub, s)
  {
    hide Less;
  }

  // ----- the variables of a tree -----

  datatype Var = Var(value: Control.Value, deleted: bool, scope: int, flag: int)

  function VarOf(n: Node): Var {
    Var(n.value, n.deleted, n.scope, n.flag)
  }

  ghost function Names(nodes: Nodes, t: Tree): set<seq<byte>> {
    set a | a in Addrs(t) && a in nodes :: nodes[a].name
  }

  ghost function Vars(nodes: Nodes, t: Tree): (m: map<seq<byte>, Var>)
    ensures m.Keys == Names(nodes, t)
  {
    map n | n in Names(nodes, t) :: var a := Search(nodes, t, n);
                                    if a in nodes then VarOf(nodes[a])
                                    else Var(Control.Value(Control.STRING, 0, 0.0, ""), true, 0, 0)
  }

  lemma VarsAt(nodes: Nodes, root: int, t: Tree, name: seq<byte>)
    requires IsTree(nodes, root, t)
    ensures name in Vars(nodes, t) <==> Search(nodes, t, name) != 0
    ensures var a := Search(nodes, t, name); a != 0 ==>
      a in Addrs(t) && a in nodes && nodes[a].name == name && Vars(nodes, t)[name] == VarOf(nodes[a])
  {
    hide Search, IsTree;
    TreeIn(nodes, root, t);
    SearchFinds(nodes, root, t, name);
    var a := Search(nodes, t, name);
    if a != 0 { assert nodes[a].name in Names(nodes, t); }
    if name in Names(nodes, t) {
      var b :| b in Addrs(t) && b in nodes && nodes[b].name == name;
      SearchOnly(nodes, root, t, b);
    }
  }

  lemma {:induction false} SearchKept(nodes: Nodes, nodes': Nodes, t: Tree, name: seq<byte>)
    requires forall a :: a in Addrs(t) ==> a in nodes && a in nodes' && nodes'[a].name == nodes[a].name
    ensures Search(nodes', t, name) == Search(nodes, t, name)
    decreases t
  {
    if t.Fork? {
      SearchKept(nodes, nodes', t.left, name);
      SearchKept(nodes, nodes', t.right, name);
    }
  }

  /** Nothing changes for a tree whose nodes do not change. */
  lemma VarsKept(nodes: Nodes, nodes': Nodes, root: int, t: Tree)
    requires IsTree(nodes, root, t) && forall a :: a in Addrs(t) ==>
      a in nodes' && (a in nodes ==> nodes'[a] == nodes[a])
    ensures IsTree(nodes', root, t) && Vars(nodes', t) == Vars(nodes, t)
  {
    hide Search, IsTree;
    TreeIn(nodes, root, t);
    TreeKept(nodes, nodes', root, t);
    assert Names(nodes', t) == Names(nodes, t);
    forall n | n in Names(nodes, t) ensures Vars(nodes', t)[n] == Vars(nodes, t)[n] {
      SearchKept(nodes, nodes', t, n);
      VarsAt(nodes, root, t, n);
    }
  }

  /** One node has got new contents. */
  lemma VarsSet(nodes: Nodes, nodes': Nodes, root: int, t: Tree, a: int)
    requires IsTree(nodes, root, t) && a in Addrs(t) && a in nodes && a in nodes' && nodes' == nodes[a := nodes'[a]]
    requires nodes'[a].name == nodes[a].name && nodes'[a].left == nodes[a].left && nodes'[a].right == nodes[a].right
    ensures IsTree(nodes', root, t) && Vars(nodes', t) == Vars(nodes, t)[nodes[a].name := VarOf(nodes'[a])]
  {
    hide Search, IsTree;
    TreeIn(nodes, root, t);
    TreeKept(nodes, nodes', root, t);
    assert Names(nodes', t) == Names(nodes, t) && nodes[a].name in Names(nodes, t);
    SearchOnly(nodes, root, t, a);
    forall n | n in Names(nodes, t) ensures Vars(nodes', t)[n] == Vars(nodes, t)[nodes[a].name := VarOf(nodes'[a])][n] {
      SearchKept(nodes, nodes', t, n);
      VarsAt(nodes, root, t, n);
      VarsAt(nodes', root, t, n);
    }
  }

  // ----- a new node -----

  function Hung(nodes: Nodes, t: Tree, name: seq<byte>, a: int): Tree
    decreases t
  {
    match t
    case Leaf => Fork(Leaf, a, Leaf)
    case Fork(l, b, r) =>
      if b in nodes && Less(name, nodes[b].name) then Fork(Hung(nodes, l, name, a), b, r)
      else Fork(l, b, Hung(nodes, r, name, a))
  }

  /** Memory with the new node at a, linked to the node ot. */
  ghost predicate Linked(nodes: Nodes, nodes': Nodes, ot: int, name: seq<byte>, a: int, node: Node) {
    && a !in nodes && a > 0 && node.name == name && node.left == 0 == node.right && IsName(name)
    && a in nodes' && nodes'[a] == node
    && (forall b :: b in nodes && b != ot ==> b in nodes' && nodes'[b] == nodes[b])
    && (ot in nodes ==>
          ot in nodes' && nodes'[ot] == if Less(name, nodes[ot].name) then nodes[ot].(left := a)
            else nodes[ot].(right := a))
  }

  lemma {:induction false} Inserted(nodes: Nodes, nodes': Nodes, root: int, t: Tree, name: seq<byte>, a: int,
          node: Node)
    requires IsTree(nodes, root, t) && Search(nodes, t, name) == 0
      && Linked(nodes, nodes', LastOn(nodes, t, name), name, a, node)
    ensures Addrs(Hung(nodes, t, name, a)) == Addrs(t) + {a}
    ensures IsTree(nodes', if t.Leaf? then a else root, Hung(nodes, t, name, a))
    decreases t
  {
    hide *;
    AddrsOf(t);
    HungIs(nodes, t, name, a);
    TreeIn(nodes, root, t);
    StepDown(nodes, t, name);
    LinkedParts(nodes, nodes', LastOn(nodes, t, name), name, a, node);
    OneNode(nodes', a);
    if t.Fork? {
      ForkParts(nodes, root, t);
      var b, ot := t.at, LastOn(nodes, t, name);
      SearchFinds(nodes, root, t, name);
      LessTotal(name, nodes[b].name);
      LastIn(nodes, root, t, name);
      NamesKept(nodes, nodes', t, ot);
      if Less(name, nodes[b].name) {
        TreeKept(nodes, nodes', nodes[b].right, t.right);
        if t.left.Fork? {
          LastIn(nodes, nodes[b].left, t.left, name);
          Inserted(nodes, nodes', nodes[b].left, t.left, name, a, node);
        }
        ForkIntro(nodes', Hung(nodes, t.left, name, a), b, t.right);
      } else {
        TreeKept(nodes, nodes', nodes[b].left, t.left);
        if t.right.Fork? {
          LastIn(nodes, nodes[b].right, t.right, name);
          Inserted(nodes, nodes', nodes[b].right, t.right, name, a, node);
        }
        ForkIntro(nodes', t.left, b, Hung(nodes, t.right, name, a));
      }
      AddrsOf(Hung(nodes, t, name, a));
    }
  }

  lemma AddrsOf(t: Tree)
    ensures t.Leaf? ==> Addrs(t) == {}
    ensures t.Fork? ==> Addrs(t) == Addrs(t.left) + {t.at} + Addrs(t.right)
    ensures t.Fork? && t.left.Leaf? ==> Addrs(t.left) == {}
    ensures t.Fork? && t.right.Leaf? ==> Addrs(t.right) == {}
  {
  }

  lemma HungIs(nodes: Nodes, t: Tree, name: seq<byte>, a: int)
    ensures t.Leaf? ==> Hung(nodes, t, name, a) == Fork(Leaf, a, Leaf)
    ensures t.Fork? && t.at in nodes ==>
      Hung(nodes, t, name, a) ==
        (if Less(name, nodes[t.at].name) then Fork(Hung(nodes, t.left, name, a), t.at, t.right)
         else Fork(t.left, t.at, Hung(nodes, t.right, name, a)))
    ensures t.Fork? && t.left.Leaf? ==> Hung(nodes, t.left, name, a) == Fork(Leaf, a, Leaf)
    ensures t.Fork? && t.right.Leaf? ==> Hung(nodes, t.right, name, a) == Fork(Leaf, a, Leaf)
    ensures Addrs(Fork(Leaf, a, Leaf)) == {a}
  {
    hide Less;
  }

  lemma LinkedParts(nodes: Nodes, nodes': Nodes, ot: int, name: seq<byte>, a: int, node: Node)
    requires Linked(nodes, nodes', ot, name, a, node)
    ensures a !in nodes && a > 0 && node.name == name && node.left == 0 == node.right && IsName(name) && a in nodes'
      && nodes'[a] == node
    ensures forall b :: b in nodes && b != ot ==> b in nodes' && nodes'[b] == nodes[b]
    ensures ot in nodes ==>
      ot in nodes' && nodes'[ot] == if Less(name, nodes[ot].name) then nodes[ot].(left := a) else nodes[ot].(right := a)
  {
    hide Less, IsName;
  }

  lemma ForkParts(nodes: Nodes, root: int, t: Tree)
    requires IsTree(nodes, root, t) && t.Fork?
    ensures var a := t.at;
      && root == a && a > 0 && a in nodes && IsName(nodes[a].name)
      && IsTree(nodes, nodes[a].left, t.left) && IsTree(nodes, nodes[a].right, t.right)
      && a !in Addrs(t.left) && a !in Addrs(t.right) && Addrs(t.left) !! Addrs(t.right)
      && (forall b :: b in Addrs(t.left) ==> b in nodes && Less(nodes[b].name, nodes[a].name))
      && (forall b :: b in Addrs(t.right) ==> b in nodes && Less(nodes[a].name, nodes[b].name))
  {
    hide Addrs, Less, IsName;
  }

  lemma ForkIntro(nodes: Nodes, l: Tree, a: int, r: Tree)
    requires a > 0 && a in nodes && IsName(nodes[a].name)
    requires IsTree(nodes, nodes[a].left, l) && IsTree(nodes, nodes[a].right, r)
    requires a !in Addrs(l) && a !in Addrs(r) && Addrs(l) !! Addrs(r)
    requires forall b :: b in Addrs(l) ==> b in nodes && Less(nodes[b].name, nodes[a].name)
    requires forall b :: b in Addrs(r) ==> b in nodes && Less(nodes[a].name, nodes[b].name)
    ensures IsTree(nodes, a, Fork(l, a, r))
  {
    hide Addrs, Less, IsName;
  }

  lemma OneNode(nodes: Nodes, a: int)
    requires a in nodes && a > 0 && nodes[a].left == 0 == nodes[a].right && IsName(nodes[a].name)
    ensures IsTree(nodes, a, Fork(Leaf, a, Leaf))
  {
  }

  lemma {:induction false} LessTotal(s: seq<byte>, t: seq<byte>)
    ensures s == t || Less(s, t) || Less(t, s)
  {
    if s != [] && t != [] && s[0] == t[0] {
      LessTotal(s[1..], t[1..]);
      assert s == [s[0]] + s[1..] && t == [t[0]] + t[1..];
    }
  }

  lemma NamesKept(nodes: Nodes, nodes': Nodes, t: Tree, ot: int)
    requires (forall b :: b in nodes && b != ot ==> b in nodes' && nodes'[b] == nodes[b])
    requires ot in nodes ==> ot in nodes' && nodes'[ot].name == nodes[ot].name
    ensures forall b :: b in Addrs(t) && b in nodes ==> b in nodes' && nodes'[b].name == nodes[b].name
  {
  }

  /** The last node on the way lies in the tree. */
  lemma {:induction false} LastIn(nodes: Nodes, root: int, t: Tree, name: seq<byte>)
    requires IsTree(nodes, root, t)
    ensures if t.Leaf? then LastOn(nodes, t, name) == 0 else LastOn(nodes, t, name) in Addrs(t)
    ensures t.Fork? && name != nodes[t.at].name ==>
      LastOn(nodes, t, name) !in Addrs(if Less(name, nodes[t.at].name) then t.right else t.left)
    decreases t
  {
    StepDown(nodes, t, name);
    if t.Fork? {
      LastIn(nodes, nodes[t.at].left, t.left, name);
      LastIn(nodes, nodes[t.at].right, t.right, name);
    }
  }

  lemma VarsInserted(nodes: Nodes, nodes': Nodes, root: int, t: Tree, name: seq<byte>, a: int, node: Node)
    requires IsTree(nodes, root, t) && Search(nodes, t, name) == 0
      && Linked(nodes, nodes', LastOn(nodes, t, name), name, a, node)
    ensures Vars(nodes', Hung(nodes, t, name, a)) == Vars(nodes, t)[name := VarOf(node)]
  {
    hide Search, IsTree, LastOn, Hung, Less;
    var t', root' := Hung(nodes, t, name, a), if t.Leaf? then a else root;
    Inserted(nodes, nodes', root, t, name, a, node);
    TreeIn(nodes, root, t);
    LastIn(nodes, root, t, name);
    NamesKept(nodes, nodes', t, LastOn(nodes, t, name));
    assert Names(nodes', t') == Names(nodes, t) + {name};
    SearchFinds(nodes, root, t, name);
    SearchOnly(nodes', root', t', a);
    forall n | n in Names(nodes', t') ensures Vars(nodes', t')[n] == Vars(nodes, t)[name := VarOf(node)][n] {
      VarsAt(nodes', root', t', n);
      if n != name {
        VarsAt(nodes, root, t, n);
        SearchOnly(nodes', root', t', Search(nodes, t, n));
      }
    }
  }

  // ----- the nodes in order -----

  function Inorder(t: Tree): seq<int> {
    if t.Leaf? then [] else Inorder(t.left) + [t.at] + Inorder(t.right)
  }

  lemma {:induction false} InorderHas(t: Tree, a: int)
    ensures a in Inorder(t) <==> a in Addrs(t)
  {
    if t.Fork? {
      InorderHas(t.left, a);
      InorderHas(t.right, a);
    }
  }

  /** In order, the names ascend, and so each node is there once. */
  lemma {:induction false} InorderAscends(nodes: Nodes, root: int, t: Tree)
    requires IsTree(nodes, root, t)
    ensures forall i :: 0 <= i < |Inorder(t)| ==> Inorder(t)[i] in Addrs(t) && Inorder(t)[i] in nodes
    ensures forall i, j :: 0 <= i < j < |Inorder(t)| ==> Less(nodes[Inorder(t)[i]].name, nodes[Inorder(t)[j]].name)
    decreases t
  {
    hide *;
    TreeIn(nodes, root, t);
    forall a ensures a in Inorder(t) <==> a in Addrs(t) { InorderHas(t, a); }
    InorderIs(t);
    if t.Fork? {
      ForkParts(nodes, root, t);
      InorderAscends(nodes, nodes[t.at].left, t.left);
      InorderAscends(nodes, nodes[t.at].right, t.right);
      AscendsAround(nodes, Inorder(t.left), t.at, Inorder(t.right));
    }
  }

  lemma AscendsAround(nodes: Nodes, l: seq<int>, m: int, r: seq<int>)
    requires m in nodes && (forall i :: 0 <= i < |l| ==> l[i] in nodes && Less(nodes[l[i]].name, nodes[m].name))
    requires forall i :: 0 <= i < |r| ==> r[i] in nodes && Less(nodes[m].name, nodes[r[i]].name)
    requires forall i, j :: 0 <= i < j < |l| ==> Less(nodes[l[i]].name, nodes[l[j]].name)
    requires forall i, j :: 0 <= i < j < |r| ==> Less(nodes[r[i]].name, nodes[r[j]].name)
    ensures var s := l + [m] + r;
      && (forall i :: 0 <= i < |s| ==> s[i] in nodes)
      && forall i, j :: 0 <= i < j < |s| ==> Less(nodes[s[i]].name, nodes[s[j]].name)
  {
    hide Less;
    var s := l + [m] + r;
    forall i, j | 0 <= i < j < |s| ensures Less(nodes[s[i]].name, nodes[s[j]].name) {
      if i < |l| && j > |l| { LessTrans(nodes[s[i]].name, nodes[m].name, nodes[s[j]].name); }
      if i > |l| {
        var x, y := i - |l| - 1, j - |l| - 1;
        assert s[i] == r[x] && s[j] == r[y];
      }
    }
  }

  // ----- the traversal of SecureVar -----

  /** The nodes that are still to come when the trees gs have been entered to the left. */
  function Pending(gs: seq<Tree>): seq<int> {
    if gs == [] then []
    else (if gs[0].Fork? then [gs[0].at] + Inorder(gs[0].right) else []) + Pending(gs[1..])
  }

  ghost predicate Stacked(nodes: Nodes, ptrs: seq<int>, gs: seq<Tree>) {
    |ptrs| == |gs| && forall k :: 0 <= k < |gs| ==> gs[k].Fork? && IsTree(nodes, ptrs[k], gs[k])
  }

  /** v is about to be entered. */
  ghost predicate Entering(nodes: Nodes, v: int, cur: Tree, ptrs: seq<int>, gs: seq<Tree>, log: seq<int>,
          order: seq<int>) {
    IsTree(nodes, v, cur) && Stacked(nodes, ptrs, gs) && order == log + (Inorder(cur) + Pending(gs))
      && (cur.Leaf? ==> gs == [])
  }

  /** v has been visited, and what is right of it comes next. */
  ghost predicate Leaving(nodes: Nodes, v: int, cur: Tree, ptrs: seq<int>, gs: seq<Tree>, log: seq<int>,
          order: seq<int>) {
    IsTree(nodes, v, cur) && cur.Fork? && Stacked(nodes, ptrs, gs) && order == log + (Inorder(cur.right) + Pending(gs))
  }

  lemma EnterStart(nodes: Nodes, root: int, t: Tree)
    requires IsTree(nodes, root, t)
    ensures Entering(nodes, root, t, [], [], [], Inorder(t))
  {
    hide IsTree;
  }

  lemma EnterNothing(nodes: Nodes, order: seq<int>)
    ensures Entering(nodes, 0, Leaf, [], [], order, order)
  {
  }

  lemma EnterEnd(nodes: Nodes, cur: Tree, ptrs: seq<int>, gs: seq<Tree>, log: seq<int>, order: seq<int>)
    requires Entering(nodes, 0, cur, ptrs, gs, log, order)
    ensures ptrs == [] && log == order
  {
    TreeIn(nodes, 0, cur);
  }

  lemma EnterLeft(nodes: Nodes, v: int, cur: Tree, ptrs: seq<int>, gs: seq<Tree>, log: seq<int>, order: seq<int>)
    requires Entering(nodes, v, cur, ptrs, gs, log, order) && v != 0
    ensures cur.Fork? && v in nodes
    ensures nodes[v].left != 0 ==> Entering(nodes, nodes[v].left, cur.left, [v] + ptrs, [cur] + gs, log, order)
    ensures nodes[v].left == 0 ==> Leaving(nodes, v, cur, ptrs, gs, log + [v], order)
  {
    hide Inorder;
    TreeIn(nodes, v, cur);
    ForkParts(nodes, v, cur);
    TreeIn(nodes, nodes[v].left, cur.left);
    hide IsTree;
    InorderIs(cur);
    PendingIs([cur] + gs);
    assert ([cur] + gs)[1..] == gs;
    if nodes[v].left != 0 {
      Joins(log, Inorder(cur.left), [v], Inorder(cur.right), Pending(gs));
    } else {
      Joins(log, [], [v], Inorder(cur.right), Pending(gs));
    }
  }

  lemma InorderIs(t: Tree)
    ensures t.Leaf? ==> Inorder(t) == []
    ensures t.Fork? ==> Inorder(t) == Inorder(t.left) + [t.at] + Inorder(t.right)
    ensures t.Fork? && t.left.Leaf? ==> Inorder(t) == [] + [t.at] + Inorder(t.right)
    ensures t.Fork? && t.right.Leaf? ==> Inorder(t.right) == []
  {
  }

  lemma PendingIs(gs: seq<Tree>)
    ensures gs == [] ==> Pending(gs) == []
    ensures gs != [] && gs[0].Fork? ==> Pending(gs) == [gs[0].at] + Inorder(gs[0].right) + Pending(gs[1..])
  {
    hide Inorder;
  }

  lemma Joins(a: seq<int>, b: seq<int>, c: seq<int>, d: seq<int>, e: seq<int>)
    ensures a + (b + c + d + e) == a + (b + (c + d + e)) && a + ([] + c + d + e) == a + c + (d + e)
  {
    assert [] + c == c;
  }

  lemma LeaveRight(nodes: Nodes, v: int, cur: Tree, ptrs: seq<int>, gs: seq<Tree>, log: seq<int>, order: seq<int>)
    requires Leaving(nodes, v, cur, ptrs, gs, log, order)
    ensures v in nodes && |ptrs| == |gs| && cur.Fork? && |log| <= |order|
    ensures nodes[v].right == 0 && ptrs != [] ==> |log| < |order|
    ensures nodes[v].right != 0 ==> Entering(nodes, nodes[v].right, cur.right, ptrs, gs, log, order)
    ensures nodes[v].right == 0 && ptrs == [] ==> log == order
    ensures nodes[v].right == 0 && ptrs != [] ==>
      ptrs[0] != 0 && Leaving(nodes, ptrs[0], gs[0], ptrs[1..], gs[1..], log + [ptrs[0]], order)
    ensures nodes[v].right == 0 && ptrs != [] ==> ptrs[0] in nodes
  {
    hide Inorder, Pending;
    ForkParts(nodes, v, cur);
    TreeIn(nodes, nodes[v].right, cur.right);
    InorderIs(cur);
    PendingIs(gs);
    if nodes[v].right == 0 && ptrs != [] {
      ForkParts(nodes, ptrs[0], gs[0]);
      assert log + ([] + ([ptrs[0]] + Inorder(gs[0].right) + Pending(gs[1..]))) ==
        log + [ptrs[0]] + (Inorder(gs[0].right) + Pending(gs[1..]));
    }
    hide IsTree;
  }
}
