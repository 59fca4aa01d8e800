/** The array of a variable in src/var.c: a linked list of nodes, and the cursor that reset, end, next
    and prev move.  Memory is a map from the address of a node to the node; 0 is the null pointer. */
module VarArrays {
  import Control

  datatype Item = Item(typ: Control.Kind, strval: string)

  /** What is pushed when there is no item. */
  function Empty(): Item { Item(Control.STRING, "") }

  const BEFORE: int := -1

  datatype Cell = Cell(item: Item, iname: string, next: int, prev: int)

  // ----- indices -----

  /** How %d prints a count. */
  function Decimal(n: nat): (s: string)
    ensures s != []
  {
    var digit := ['0' + (n % 10) as char];
    if n < 10 then digit else Decimal(n / 10) + digit
  }

  lemma {:induction false} DecimalOnce(m: nat, n: nat)
    ensures Decimal(m) == Decimal(n) <==> m == n
  {
    var s, t := Decimal(m), Decimal(n);
    assert s[|s| - 1] == '0' + (m % 10) as char && t[|t| - 1] == '0' + (n % 10) as char;
    if s == t {
      assert m % 10 == n % 10;
      if m >= 10 && n >= 10 {
        assert s[..|s| - 1] == Decimal(m / 10) && t[..|t| - 1] == Decimal(n / 10);
        DecimalOnce(m / 10, n / 10);
      }
    }
  }

  /** The text s, read in base ten. */
  function Reading(s: string): int {
    if s == "" then 0 else 10 * Reading(s[..|s| - 1]) + (s[|s| - 1] as int - '0' as int)
  }

  /** s is the usual way of writing the number n: digits, no zero in front of others, and the value is n. */
  predicate Writes(s: string, n: int) {
    && s != "" && (forall k :: 0 <= k < |s| ==> '0' <= s[k] <= '9') && (|s| > 1 ==> s[0] != '0')
    && Reading(s) == n
  }

  lemma {:induction false} DecimalWrites(n: nat)
    ensures Writes(Decimal(n), n) && (n > 0 ==> Decimal(n)[0] != '0')
  {
    if n >= 10 {
      DecimalWrites(n / 10);
      var s := Decimal(n);
      assert s[..|s| - 1] == Decimal(n / 10);
    } else {
      assert Decimal(n)[..0] == "";
    }
  }

  lemma {:induction false} ReadingGrows(s: string)
    requires s != "" && (forall k :: 0 <= k < |s| ==> '0' <= s[k] <= '9') && s[0] != '0'
    ensures Reading(s) > 0
  {
    if |s| > 1 { ReadingGrows(s[..|s| - 1]); }
    else { assert s[..0] == ""; }
  }

  /** There is no other way of writing it. */
  lemma {:induction false} WritesIsDecimal(s: string, n: nat)
    ensures Writes(s, n) <==> s == Decimal(n)
    decreases |s|
  {
    DecimalWrites(n);
    if Writes(s, n) {
      var init, d := s[..|s| - 1], s[|s| - 1] as int - '0' as int;
      assert n == 10 * Reading(init) + d && 0 <= d < 10;
      if |s| == 1 {
        assert init == "";
        assert s == [s[0]];
      } else {
        ReadingGrows(init);
        assert n / 10 == Reading(init) && n % 10 == d;
        WritesIsDecimal(init, n / 10);
        assert s == init + [s[|s| - 1]];
      }
    }
  }

  lemma DecimalExamples()
    ensures Decimal(0) == "0" && Decimal(8) == "8" && Decimal(10) == "10" && Decimal(305) == "305"
  {
  }

  lemma ReadingExamples()
    ensures Reading("8") == 8 && Reading("10") == 10 && Reading("305") == 305
  {
    hide Writes, Decimal;
    ReadingSnoc("", '8');
    ReadingSnoc("", '1');
    ReadingSnoc("1", '0');
    ReadingSnoc("", '3');
    ReadingSnoc("3", '0');
    ReadingSnoc("30", '5');
  }

  lemma ReadingSnoc(s: string, c: char)
    ensures Reading("") == 0 && Reading(s + [c]) == 10 * Reading(s) + (c as int - '0' as int)
  {
    assert (s + [c])[..|s|] == s;
  }

  // ----- what the operations mean -----

  /** The items of an array and the place of the cursor: before the first one, on one of them, or after
      the last one. */
  datatype Arr = Arr(items: seq<Item>, at: int) {
    predicate Ok() {
      items != [] && -1 <= at <= |items|
    }

    function Here(): Item {
      if 0 <= at < |items| then items[at] else Empty()
    }
  }

  function AppendStep(a: Arr, x: Item): Arr {
    Arr(a.items + [x], if a.at == |a.items| then a.at + 1 else a.at)
  }

  function NextStep(a: Arr): Arr {
    if a.at < |a.items| then a.(at := a.at + 1) else a
  }

  function PrevStep(a: Arr): Arr {
    if a.at > -1 then a.(at := a.at - 1) else a
  }

  function EndStep(a: Arr): Arr {
    a.(at := if |a.items| == 1 then -1 else |a.items| - 2)
  }

  // ----- memory -----

  ghost predicate Chained(cells: map<int, Cell>, list: seq<int>, items: seq<Item>) {
    && |items| == |list|
    && (forall i :: 0 <= i < |list| ==> list[i] > 0 && list[i] in cells)
    && (forall i, j :: 0 <= i < j < |list| ==> list[i] != list[j])
    && forall i :: 0 <= i < |list| ==> cells[list[i]] == CellOf(list, items, i)
  }

  /** next leads to the successor, and prev back to the predecessor. */
  function CellOf(list: seq<int>, items: seq<Item>, i: nat): Cell
    requires i < |list| == |items|
  {
    Cell(items[i], Decimal(i), if i + 1 < |list| then list[i + 1] else 0, if i > 0 then list[i - 1] else BEFORE)
  }

  lemma NodeAt(cells: map<int, Cell>, list: seq<int>, items: seq<Item>, i: nat)
    requires Chained(cells, list, items) && i < |list|
    ensures |items| == |list| && list[i] > 0 && list[i] in cells
    ensures cells[list[i]] ==
      Cell(items[i], Decimal(i), if i + 1 < |list| then list[i + 1] else 0, if i > 0 then list[i - 1] else BEFORE)
  {
    hide Decimal;
  }

  lemma ChainedLength(cells: map<int, Cell>, list: seq<int>, items: seq<Item>)
    requires Chained(cells, list, items)
    ensures |items| == |list|
  {
  }

  /** The last node gets a successor. */
  lemma ChainedAppend(cells: map<int, Cell>, cells': map<int, Cell>, list: seq<int>, items: seq<Item>, x: Item,
          mem: int)
    requires Chained(cells, list, items) && list != [] && mem > 0 && mem !in cells
    requires var last := list[|list| - 1];
      last in cells && cells' == cells[mem := Cell(x, Decimal(|list|), 0, last)][last := cells[last].(next := mem)]
    ensures Chained(cells', list + [mem], items + [x])
  {
    hide Decimal, Chained;
    var list', items' := list + [mem], items + [x];
    ChainedLength(cells, list, items);
    ChainedApart(cells, list, items);
    forall i | 0 <= i < |list'| ensures list'[i] > 0 && list'[i] in cells'
      && cells'[list'[i]] == CellOf(list', items', i) {
      if i < |list| {
        NodeAt(cells, list, items, i);
        if i + 1 < |list| { assert list[i] != list[|list| - 1]; }
      }
    }
    forall i, j | 0 <= i < j < |list'| ensures list'[i] != list'[j] { NodeAt(cells, list, items, i); }
    ChainedIntro(cells', list', items');
  }

  lemma ChainedSet(cells: map<int, Cell>, cells': map<int, Cell>, list: seq<int>, items: seq<Item>, x: Item)
    requires Chained(cells, list, items) && list != []
    requires list[0] in cells && cells' == cells[list[0] := cells[list[0]].(item := x)]
    ensures items != [] && Chained(cells', list, items[0 := x])
  {
    hide Decimal;
  }

  lemma ChainedApart(cells: map<int, Cell>, list: seq<int>, items: seq<Item>)
    requires Chained(cells, list, items)
    ensures forall i, j :: 0 <= i < j < |list| ==> list[i] != list[j]
  {
    hide CellOf;
  }

  lemma ChainedIntro(cells: map<int, Cell>, list: seq<int>, items: seq<Item>)
    requires |items| == |list|
    requires forall i :: 0 <= i < |list| ==> list[i] > 0 && list[i] in cells && cells[list[i]] == CellOf(list, items, i)
    requires forall i, j :: 0 <= i < j < |list| ==> list[i] != list[j]
    ensures Chained(cells, list, items)
  {
    hide CellOf;
  }

  class Variable {
    var cells: map<int, Cell>
    var head: int
    var count: int
    var lastnode: int
    var lacc: int
    var deleted: bool
    ghost var list: seq<int>
    ghost var arr: Arr

    ghost predicate Valid()
      reads this
    {
      && Chained(cells, list, arr.items) && arr.Ok() && head == list[0] && count == |list|
        && lastnode == list[|list| - 1]
      && lacc == PlaceOf(list, arr.at)
      && (deleted ==> |list| == 1 && arr.at == -1)
    }

    lemma Parts()
      ensures Valid() <==>
        && Chained(cells, list, arr.items) && arr.items != [] && -1 <= arr.at <= |arr.items| && |arr.items| == |list|
        && head == list[0] && count == |list| && lastnode == list[|list| - 1]
        && lacc == (if arr.at == -1 then BEFORE else if arr.at < |list| then list[arr.at] else 0)
        && (deleted ==> |list| == 1 && arr.at == -1)
    {
      if Chained(cells, list, arr.items) { ChainedLength(cells, list, arr.items); }
      hide Chained;
    }

    /** SetVar makes a variable. */
    constructor (x: Item, mem: int)
      requires mem > 0
      ensures Valid() && arr == Arr([x], -1) && !deleted
    {
      cells, head, count, lastnode, lacc, deleted := map[mem := Cell(x, "0", 0, BEFORE)], mem, 1, mem, BEFORE, false;
      list, arr := [mem], Arr([x], -1);
    }

    /** SetVar appends, mode 1; mem is what malloc answers. */
    method Append(x: Item, mem: int)
      requires Valid() && mem > 0 && mem !in cells
      modifies this
      ensures Valid() && !deleted && arr == if old(deleted) then Arr([x], -1) else AppendStep(old(arr), x)
      ensures lastnode in cells && Writes(cells[lastnode].iname, |arr.items| - 1)
    {
      hide *;
      Parts();
      ghost var before := cells;
      if !deleted {
        AppendIs(arr, x);
        NodeAt(cells, list, arr.items, |list| - 1);
        BeforeIs();
        var n: nat, ptt, tt := 0, head, head;
        while tt != 0
          modifies {}
          invariant n <= |list| && (tt == if n < |list| then list[n] else 0) && (n > 0 ==> ptt == list[n - 1])
            && (n == 0 ==> ptt == list[0])
          decreases |list| - n
        {
          NodeAt(cells, list, arr.items, n);
          n := n + 1;
          ptt := tt;
          tt := cells[tt].next;
        }
        if n < |list| { NodeAt(cells, list, arr.items, n); }
        cells := cells[mem := Cell(x, Decimal(n), 0, BEFORE)];
        cells := cells[ptt := cells[ptt].(next := mem)];
        cells := cells[mem := cells[mem].(prev := if mem != ptt then ptt else BEFORE)];
        count := count + 1;
        lastnode := mem;
        assert mem != ptt;
        assert cells == before[mem := Cell(x, Decimal(n), 0, ptt)][ptt := before[ptt].(next := mem)];
        ChainedAppend(before, cells, list, arr.items, x, mem);
        list, arr := list + [mem], AppendStep(arr, x);
      } else {
        NodeAt(cells, list, arr.items, 0);
        cells := cells[head := Cell(x, "0", 0, BEFORE)];
        deleted, count, lastnode := false, 1, head;
        arr := Arr([x], -1);
        OneChained(cells, head, x);
        assert list == [head];
      }
      Parts();
      NodeAt(cells, list, arr.items, |list| - 1);
      DecimalWrites(|list| - 1);
    }

    /** SetVar of a variable that is there, mode 0: the first item gets the value. */
    method Set(x: Item)
      requires Valid()
      modifies this
      ensures Valid() && !deleted && arr == old(arr).(items := old(arr).items[0 := x])
    {
      hide *;
      Parts();
      NodeAt(cells, list, arr.items, 0);
      ghost var before := cells;
      cells := cells[head := cells[head].(item := x)];
      deleted := false;
      ChainedSet(before, cells, list, arr.items, x);
      arr := arr.(items := arr.items[0 := x]);
      Parts();
    }

    /** deletearray. */
    method Unset()
      requires Valid() && !deleted
      modifies this
      ensures Valid() && deleted && |arr.items| == 1 && arr.at == -1
    {
      hide *;
      Parts();
      NodeAt(cells, list, arr.items, 0);
      var o := cells[head].next;
      ghost var k := 1;
      while o != 0
        modifies {}
        invariant 1 <= k <= |list| && o == if k < |list| then list[k] else 0
        decreases |list| - k
      {
        NodeAt(cells, list, arr.items, k);
        o := cells[o].next;
        k := k + 1;
      }
      count := 1;
      cells := cells[head := cells[head].(prev := BEFORE, next := 0, item := cells[head].item.(strval := ""))];
      lacc, lastnode, deleted := BEFORE, head, true;
      list, arr := [head], Arr([cells[head].item], -1);
      DecimalZero();
      OneChained(cells, head, cells[head].item);
      Parts();
    }

    method Reset() returns (out: Item)
      requires Valid() && !deleted
      modifies `lacc, `arr
      ensures Valid() && arr == old(arr).(at := -1) && out == arr.items[0]
    {
      hide *;
      Parts();
      NodeAt(cells, list, arr.items, 0);
      lacc := BEFORE;
      arr := arr.(at := -1);
      out := cells[head].item;
      Parts();
    }

    method End() returns (out: Item)
      requires Valid() && !deleted
      modifies `lacc, `arr
      ensures Valid() && arr == EndStep(old(arr)) && out == arr.items[|arr.items| - 1]
    {
      hide *;
      Parts();
      NodeAt(cells, list, arr.items, |list| - 1);
      EndIs(arr);
      lacc := cells[lastnode].prev;
      arr := EndStep(arr);
      out := cells[lastnode].item;
      Parts();
    }

    method Next() returns (out: Item)
      requires Valid() && !deleted
      modifies `lacc, `arr
      ensures Valid() && arr == NextStep(old(arr))
      ensures out == if 0 <= arr.at < |arr.items| then arr.items[arr.at] else Item(Control.STRING, "")
    {
      hide *;
      Parts();
      BeforeIs();
      CursorIs(arr);
      ghost var to := NextStep(arr);
      if 0 <= arr.at < |list| { NodeAt(cells, list, arr.items, arr.at); }
      if 0 <= to.at < |list| { NodeAt(cells, list, arr.items, to.at); }
      var tt;
      if lacc == BEFORE {
        tt := head;
      } else if lacc == 0 {
        tt := 0;
      } else {
        tt := cells[lacc].next;
      }
      lacc := tt;
      arr := to;
      CursorIs(arr);
      out := if tt != 0 then cells[tt].item else Item(Control.STRING, "");
      Parts();
    }

    method Prev() returns (out: Item)
      requires Valid() && !deleted
      modifies `lacc, `arr
      ensures Valid() && arr == PrevStep(old(arr))
      ensures out == if 0 <= arr.at < |arr.items| then arr.items[arr.at] else Item(Control.STRING, "")
    {
      hide *;
      Parts();
      BeforeIs();
      CursorIs(arr);
      ghost var to := PrevStep(arr);
      if 0 <= arr.at < |list| { NodeAt(cells, list, arr.items, arr.at); }
      if 0 <= to.at < |list| { NodeAt(cells, list, arr.items, to.at); }
      var tt;
      if lacc == BEFORE {
        tt := BEFORE;
      } else if lacc == 0 {
        tt := lastnode;
      } else {
        tt := cells[lacc].prev;
      }
      lacc := tt;
      arr := to;
      CursorIs(arr);
      out := if tt != 0 && tt != BEFORE then cells[tt].item else Item(Control.STRING, "");
      Parts();
    }

    /** Key: the index that next would move to; when the cursor has left the array, that of the first item. */
    method Key() returns (out: string)
      requires Valid() && !deleted
      ensures arr.at == -1 || arr.at == |arr.items| ==> out == "0"
      ensures 0 <= arr.at < |arr.items| - 1 ==> Writes(out, arr.at + 1)
      ensures 0 <= arr.at == |arr.items| - 1 ==> out == ""
    {
      hide *;
      Parts();
      BeforeIs();
      DecimalZero();
      NodeAt(cells, list, arr.items, 0);
      if 0 <= arr.at < |list| { NodeAt(cells, list, arr.items, arr.at); }
      if 0 <= arr.at < |list| - 1 {
        NodeAt(cells, list, arr.items, arr.at + 1);
        DecimalWrites(arr.at + 1);
      }
      var tt := if lacc != BEFORE && lacc != 0 then cells[lacc].next else head;
      out := if tt != 0 then cells[tt].iname else "";
    }

    /** GetVar with an index: item i is found by the text that writes i, and by no other. */
    method At(index: string) returns (t: int)
      requires Valid() && !deleted
      ensures t != 0 ==> t in cells && exists i: nat ::
        i < |arr.items| && Writes(index, i) && cells[t].item == arr.items[i]
      ensures t == 0 ==> forall i: nat :: i < |arr.items| ==> !Writes(index, i)
    {
      hide *;
      Parts();
      NodeAt(cells, list, arr.items, 0);
      t := head;
      ghost var k: nat := 0;
      while t != 0
        invariant 0 <= k <= |list| && t == (if k < |list| then list[k] else 0) && forall i: nat :: i < k ==>
          !Writes(index, i)
        decreases |list| - k
      {
        NodeAt(cells, list, arr.items, k);
        WritesIsDecimal(index, k);
        if cells[t].iname == index {
          return;
        }
        t := cells[t].next;
        k := k + 1;
      }
      if k < |list| { NodeAt(cells, list, arr.items, k); }
    }
  }

  lemma BeforeIs()
    ensures BEFORE == -1
  {
  }

  lemma DecimalZero()
    ensures Decimal(0) == "0"
  {
  }

  lemma OneChained(cells: map<int, Cell>, a: int, x: Item)
    requires a > 0 && a in cells && cells[a] == Cell(x, "0", 0, BEFORE)
    ensures Chained(cells, [a], [x])
  {
  }

  lemma OkIs(a: Arr)
    ensures a.Ok() <==> a.items != [] && -1 <= a.at <= |a.items|
  {
  }

  lemma AppendIs(a: Arr, x: Item)
    ensures AppendStep(a, x) == Arr(a.items + [x], if a.at == |a.items| then a.at + 1 else a.at)
  {
  }

  lemma EndIs(a: Arr)
    ensures EndStep(a) == Arr(a.items, if |a.items| == 1 then -1 else |a.items| - 2)
  {
  }

  lemma CursorIs(a: Arr)
    ensures NextStep(a) == Arr(a.items, if a.at < |a.items| then a.at + 1 else a.at)
    ensures PrevStep(a) == Arr(a.items, if a.at > -1 then a.at - 1 else a.at)
    ensures a.Here() == if 0 <= a.at < |a.items| then a.items[a.at] else Empty()
  {
  }

  function PlaceOf(list: seq<int>, at: int): int {
    if at < 0 then BEFORE else if at < |list| then list[at] else 0
  }

  // ----- traversals -----

  function Nexts(a: Arr, k: nat): (Arr, seq<Item>)
    decreases k
  {
    if k == 0 then (a, []) else var b := NextStep(a); var (c, out) := Nexts(b, k - 1); (c, [b.Here()] + out)
  }

  function Prevs(a: Arr, k: nat): (Arr, seq<Item>)
    decreases k
  {
    if k == 0 then (a, []) else var b := PrevStep(a); var (c, out) := Prevs(b, k - 1); (c, [b.Here()] + out)
  }

  function Backwards(s: seq<Item>): seq<Item> {
    seq(|s|, i requires 0 <= i < |s| => s[|s| - 1 - i])
  }

  lemma {:induction false} NextsFrom(a: Arr, k: nat)
    requires a.Ok() && a.at + k < |a.items|
    ensures Nexts(a, k).0 == a.(at := a.at + k) && Nexts(a, k).1 == a.items[a.at + 1..a.at + 1 + k]
    decreases k
  {
    if k > 0 {
      var b := NextStep(a);
      NextsFrom(b, k - 1);
      SliceFirst(a.items, b.at, b.at + k);
      hide Nexts;
      assert Nexts(a, k) == (Nexts(b, k - 1).0, [b.Here()] + Nexts(b, k - 1).1) by { NextsOne(a, k); }
    }
  }

  lemma NextsOne(a: Arr, k: nat)
    requires k > 0
    ensures Nexts(a, k) == (Nexts(NextStep(a), k - 1).0, [NextStep(a).Here()] + Nexts(NextStep(a), k - 1).1)
  {
  }

  lemma SliceFirst(s: seq<Item>, lo: nat, hi: nat)
    requires lo < hi <= |s|
    ensures s[lo..hi] == [s[lo]] + s[lo + 1..hi]
  {
  }

  lemma {:induction false} PrevsFrom(a: Arr, k: nat)
    requires a.Ok() && k <= a.at
    ensures Prevs(a, k).0 == a.(at := a.at - k) && Prevs(a, k).1 == Backwards(a.items[a.at - k..a.at])
    decreases k
  {
    if k == 0 {
      assert Backwards(a.items[a.at..a.at]) == [];
    } else {
      var b := PrevStep(a);
      PrevsFrom(b, k - 1);
      BackwardsMore(a.items, a.at - k, a.at);
      hide Backwards;
    }
  }

  lemma BackwardsMore(s: seq<Item>, lo: nat, hi: nat)
    requires lo < hi <= |s|
    ensures Backwards(s[lo..hi]) == [s[hi - 1]] + Backwards(s[lo..hi - 1])
  {
    var b, c := Backwards(s[lo..hi]), [s[hi - 1]] + Backwards(s[lo..hi - 1]);
    forall i | 0 <= i < |b| ensures b[i] == c[i] { }
  }

  /** From the start, as many nexts as there are items yield the items in order; one more yields nothing;
      then as many prevs yield them backwards, and one more yields nothing and is back before the start. */
  lemma ThereAndBack(a: Arr)
    requires a.Ok()
    ensures var n := |a.items|;
      var (b, out) := Nexts(a.(at := -1), n);
      var past := NextStep(b);
      var (c, back) := Prevs(past, n);
      && out == a.items && past.Here() == Empty() && past.at == n
      && back == Backwards(a.items) && c.at == 0 && PrevStep(c).Here() == Empty() && PrevStep(c) == a.(at := -1)
  {
    var n := |a.items|;
    NextsFrom(a.(at := -1), n);
    assert a.items[0..n] == a.items;
    PrevsFrom(a.(at := n), n);
  }

  /** Appends do not disturb a traversal that has not left the array: what it still has to yield comes
      first, and then what has been appended. */
  lemma AppendedComes(a: Arr, x: Item)
    requires a.Ok() && a.at < |a.items|
    ensures var k := |a.items| - a.at - 1;
      && Nexts(AppendStep(a, x), k + 1).1 == Nexts(a, k).1 + [x]
      && NextStep(AppendStep(a.(at := |a.items|), x)).Here() == Empty()
  {
    hide *;
    OkIs(a);
    AppendIs(a, x);
    AppendIs(a.(at := |a.items|), x);
    CursorIs(AppendStep(a.(at := |a.items|), x));
    CursorIs(NextStep(AppendStep(a.(at := |a.items|), x)));
    var k, b := |a.items| - a.at - 1, AppendStep(a, x);
    OkIs(b);
    NextsFrom(a, k);
    NextsFrom(b, k + 1);
    assert b.items[a.at + 1..a.at + 1 + k + 1] == a.items[a.at + 1..a.at + 1 + k] + [x];
  }

  /** After end, next yields the last item, but prev the last but two. */
  lemma AfterEnd(a: Arr)
    requires a.Ok()
    ensures var n := |a.items|; NextStep(EndStep(a)).Here() == a.items[n - 1]
    ensures var n := |a.items|; PrevStep(EndStep(a)).Here() == if n >= 3 then a.items[n - 3] else Empty()
  {
  }
}
