/** The linked stacks of src/cond.c: a node that is popped goes to a second stack, from which the next
    push takes it again. */
module Recycled {
  datatype Option<T> = None | Some(value: T)

  class Node<T> {
    var val: T
    var next: Node?<T>

    constructor (val: T)
      ensures this.val == val && next == null
    {
      this.val := val;
      next := null;
    }
  }

  /** Following `next` from head one meets the nodes in order, each once, and then null. */
  ghost predicate Chain<T>(head: Node?<T>, nodes: seq<Node<T>>)
    reads nodes
  {
    if nodes == [] then head == null
    else head == nodes[0] && nodes[0] !in nodes[1..] && Chain(nodes[0].next, nodes[1..])
  }

  ghost function Vals<T>(nodes: seq<Node<T>>): seq<T>
    reads nodes
  {
    if nodes == [] then [] else [nodes[0].val] + Vals(nodes[1..])
  }

  class Stack<T> {
    var top: Node?<T>
    var spare: Node?<T>
    ghost var live: seq<Node<T>>
    ghost var free: seq<Node<T>>
    ghost var Repr: set<object>

    /** No node occurs twice, in either stack. */
    ghost predicate Valid()
      reads this, Repr
    {
      && this in Repr && (forall n :: n in live ==> n in Repr) && (forall n :: n in free ==> n in Repr)
      && Chain(top, live) && Chain(spare, free)
      && forall n :: n in live ==> n !in free
    }

    /** The values on the stack, topmost first. */
    ghost function Contents(): seq<T>
      reads this, live
    {
      Vals(live)
    }

    constructor ()
      ensures Valid() && Contents() == [] && fresh(Repr)
    {
      top, spare := null, null;
      live, free := [], [];
      Repr := {this};
    }

    method Push(val: T)
      requires Valid()
      modifies Repr
      ensures Valid() && Contents() == [val] + old(Contents())
      ensures fresh(Repr - old(Repr))
    {
      var node: Node<T>;
      ghost var rest, vals := live, Vals(live);
      if spare == null {
        node := new Node(val);
      } else {
        node := spare;
        assert free == [node] + free[1..];
        spare := spare.next;
        free := free[1..];
      }
      assert Chain(top, rest) && Vals(rest) == vals && Chain(spare, free);
      node.val := val;
      node.next := top;
      assert node !in rest && node !in free;
      top := node;
      live := [node] + rest;
      assert live[1..] == rest;
      Repr := Repr + {node};
    }

    method Pop() returns (r: Option<T>)
      requires Valid()
      modifies Repr
      ensures Valid() && Repr == old(Repr)
      ensures old(Contents()) == [] ==> r == None && Contents() == []
      ensures old(Contents()) != [] ==> r == Some(old(Contents())[0]) && Contents() == old(Contents())[1..]
    {
      if top == null {
        return None;
      }
      ghost var rest, others := live[1..], free;
      assert live == [top] + rest;
      r := Some(top.val);
      var node := top;
      top := top.next;
      assert Chain(top, rest) && Chain(spare, others) && Vals(rest) == old(Contents())[1..];
      node.next := spare;
      spare := node;
      live, free := rest, [node] + others;
      assert free[1..] == others;
    }

    method Peek() returns (r: Option<T>)
      requires Valid()
      ensures Contents() == [] ==> r == None
      ensures Contents() != [] ==> r == Some(Contents()[0])
    {
      if top == null {
        return None;
      }
      return Some(top.val);
    }
  }
}
