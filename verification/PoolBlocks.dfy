/** The memory blocks of src/pool.c: chains linked through their headers, and the free list.
    Memory is a map from the address of a block to its header; 0 is the null pointer. */
module PoolBlocks {

  const ALIGN: int := 8
  /** Bytes of a block's header. */
  const HDR: int := 24
  const MINFREE: int := 8192

  /** Where the block's data ends, the next block, and the first byte that is free. */
  datatype Hdr = Hdr(endp: int, next: int, avail: int)

  type Memory = map<int, Hdr>

  // ----- chains -----

  /** Following `next` from head one meets the blocks of s, each once, and then `end`. */
  ghost predicate Seg(hdr: Memory, head: int, s: seq<int>, end: int)
    decreases |s|
  {
    if s == [] then head == end
    else head == s[0] && head != 0 && head in hdr && head !in s[1..] && Seg(hdr, hdr[head].next, s[1..], end)
  }

  ghost predicate Chain(hdr: Memory, head: int, s: seq<int>) {
    Seg(hdr, head, s, 0)
  }

  lemma {:induction false} SegSame(hdr: Memory, hdr': Memory, head: int, s: seq<int>, end: int)
    requires Seg(hdr, head, s, end) && forall b :: b in s ==> b in hdr && b in hdr' && hdr'[b].next == hdr[b].next
    ensures Seg(hdr', head, s, end)
    decreases |s|
  {
    if s != [] { SegSame(hdr, hdr', hdr[head].next, s[1..], end); }
  }

  lemma {:induction false} SegIn(hdr: Memory, head: int, s: seq<int>, end: int, b: int)
    requires Seg(hdr, head, s, end) && b in s
    ensures b in hdr && b != 0
    decreases |s|
  {
    if b != s[0] { SegIn(hdr, hdr[head].next, s[1..], end, b); }
  }

  lemma {:induction false} SegJoin(hdr: Memory, head: int, s: seq<int>, mid: int, t: seq<int>, end: int)
    requires Seg(hdr, head, s, mid) && Seg(hdr, mid, t, end) && forall b :: b in s ==> b !in t
    ensures Seg(hdr, head, s + t, end)
    decreases |s|
  {
    if s == [] {
      assert s + t == t;
    } else {
      SegJoin(hdr, hdr[head].next, s[1..], mid, t, end);
      assert (s + t)[1..] == s[1..] + t;
    }
  }

  lemma {:induction false} SegSplit(hdr: Memory, head: int, s: seq<int>, end: int, k: nat) returns (mid: int)
    requires Seg(hdr, head, s, end) && k <= |s|
    ensures Seg(hdr, head, s[..k], mid) && Seg(hdr, mid, s[k..], end)
    ensures mid == if k < |s| then s[k] else end
    ensures forall b :: b in s[..k] ==> b !in s[k..]
    decreases |s|
  {
    if k == 0 {
      mid := head;
      assert s[0..] == s;
    } else {
      mid := SegSplit(hdr, hdr[head].next, s[1..], end, k - 1);
      assert s[..k][1..] == s[1..][..k - 1] && s[1..][k - 1..] == s[k..];
      assert forall b :: b in s[..k] ==> b == s[0] || b in s[1..][..k - 1];
      assert forall b :: b in s[k..] ==> b in s[1..];
    }
  }

  /** The last block of a chain is made to lead elsewhere. */
  lemma {:induction false} SegRetarget(hdr: Memory, head: int, s: seq<int>, end: int, hdr': Memory, end': int)
    requires Seg(hdr, head, s, end) && s != [] && forall b :: b in s ==> b in hdr && b in hdr'
    requires forall b :: b in s && b != s[|s| - 1] ==> hdr'[b].next == hdr[b].next
    requires hdr'[s[|s| - 1]].next == end'
    ensures Seg(hdr', head, s, end')
    decreases |s|
  {
    if |s| > 1 {
      assert s[|s| - 1] in s[1..];
      SegRetarget(hdr, hdr[head].next, s[1..], end, hdr', end');
    }
  }

  lemma SegNext(hdr: Memory, head: int, s: seq<int>, end: int, k: nat)
    requires Seg(hdr, head, s, end) && k < |s|
    ensures s[k] in hdr && s[k] != 0 && hdr[s[k]].next == if k + 1 < |s| then s[k + 1] else end
  {
    var mid := SegSplit(hdr, head, s, end, k);
    assert s[k..][1..] == s[k + 1..];
  }

  lemma {:induction false} SegDistinct(hdr: Memory, head: int, s: seq<int>, end: int, i: nat, j: nat)
    requires Seg(hdr, head, s, end) && i < j < |s|
    ensures s[i] != s[j]
  {
    var mid := SegSplit(hdr, head, s, end, j);
    assert s[i] in s[..j] && s[j] in s[j..];
  }

  // ----- blocks in memory -----

  /** Blocks are aligned and lie apart from each other, and each has its free part behind its header. */
  ghost predicate Apart(hdr: Memory) {
    && (forall b :: b in hdr ==> 0 < b && b % ALIGN == 0 && b + HDR <= hdr[b].avail <= hdr[b].endp)
    && (forall b, c :: b in hdr && c in hdr && b != c ==> hdr[b].endp <= c || hdr[c].endp <= b)
  }

  /** [mem, mem + HDR + size) is not in use. */
  ghost predicate Unused(hdr: Memory, mem: int, size: int) {
    mem > 0 && mem % ALIGN == 0 && forall b :: b in hdr ==> hdr[b].endp <= mem || mem + HDR + size <= b
  }

  class BlockStore {
    var freelist: int
    var hdr: Memory
    ghost var free: seq<int>

    ghost predicate FreeOk()
      reads this
    {
      Chain(hdr, freelist, free) && forall b :: b in free ==> b in hdr && hdr[b].avail == b + HDR
    }

    constructor ()
      ensures FreeOk() && hdr == map[] && free == [] && freelist == 0
    {
      freelist, hdr, free := 0, map[], [];
    }

    /** GOOMBAServer_malloc_block: mem is what malloc answers. */
    method MallocBlock(size: int, mem: int)
      requires Apart(hdr) && Unused(hdr, mem, size) && size >= 0
      modifies `hdr
      ensures hdr == old(hdr)[mem := Hdr(mem + HDR + size, 0, mem + HDR)] && mem !in old(hdr) && Apart(hdr)
    {
      hdr := hdr[mem := Hdr(mem + HDR + size, 0, mem + HDR)];
    }

    /** GOOMBAServer_free_blocks: the chain bs goes in front of the free list. */
    method FreeBlocks(start: int, ghost bs: seq<int>)
      requires FreeOk() && Chain(hdr, start, bs) && forall b :: b in bs ==> b !in free
      modifies `freelist, `hdr, `free
      ensures FreeOk() && free == bs + old(free)
      ensures hdr.Keys == old(hdr).Keys
      ensures forall b :: b in old(hdr) && b !in bs ==> hdr[b] == old(hdr)[b]
      ensures forall b :: b in old(hdr) && b in bs ==> hdr[b].endp == old(hdr)[b].endp && hdr[b].avail == b + HDR
    {
      var oldFreeList := freelist;
      if start == 0 {
        EmptyChain(hdr, start, bs);
        assert bs + free == free;
        return;
      }
      freelist := start;
      var blok := start;
      ghost var k: nat := 0;
      NonEmptyChain(hdr, start, bs);
      SegNext(hdr, start, bs, 0, 0);
      while hdr[blok].next != 0
        modifies `hdr
        invariant k < |bs| && blok == bs[k] && hdr.Keys == old(hdr).Keys && blok in hdr
        invariant forall b :: b in hdr ==> hdr[b].next == old(hdr)[b].next && hdr[b].endp == old(hdr)[b].endp
        invariant forall b :: b in hdr ==> hdr[b].avail == if b in bs[..k] then b + HDR else old(hdr)[b].avail
        decreases |bs| - k
      {
        SegNext(old(hdr), start, bs, 0, k);
        SegNext(old(hdr), start, bs, 0, k + 1);
        hdr := hdr[blok := hdr[blok].(avail := blok + HDR)];
        assert bs[..k + 1] == bs[..k] + [bs[k]];
        blok := hdr[blok].next;
        k := k + 1;
      }
      LastOfChain(old(hdr), start, bs, k);
      hdr := hdr[blok := Hdr(hdr[blok].endp, oldFreeList, blok + HDR)];
      assert bs == bs[..k] + [bs[k]];
      forall b | b in bs ensures b in old(hdr) { SegIn(old(hdr), start, bs, 0, b); }
      FreedChain(old(hdr), start, bs, hdr, oldFreeList, free);
      free := bs + free;
    }

    /** The search of GOOMBAServer_new_block: the first block of the free list that is large enough is
        taken from it; 0 if there is none. */
    method TakeFree(need: int) returns (b: int)
      requires FreeOk()
      modifies `freelist, `hdr, `free
      ensures var k := FirstFit(old(hdr), old(free), need);
              if k < |old(free)| then b == old(free)[k]
                && Taken(old(hdr), old(freelist), old(free), k, hdr, freelist, free)
              else b == 0 && hdr == old(hdr) && freelist == old(freelist) && free == old(free)
    {
      hide *;
      FreeParts();
      FitFrom(hdr, free, need, 0);
      var last, blok := 0, freelist;  // last: where the link to blok is, 0 for the head of the list
      ghost var k: nat := 0;
      ChainAt(hdr, freelist, free, k);
      while blok != 0
        invariant freelist == old(freelist) && hdr == old(hdr) && free == old(free)
        invariant k <= |free| && blok == (if k < |free| then free[k] else 0)
          && last == (if k == 0 then 0 else free[k - 1])
        invariant FirstFit(hdr, free, need) == k + FirstFit(hdr, free[k..], need)
        decreases |free| - k
      {
        ChainAt(hdr, freelist, free, k);
        FitFrom(hdr, free, need, k);
        if need <= hdr[blok].endp - hdr[blok].avail {
          Unlinked(hdr, freelist, free, k);
          if last == 0 {
            freelist := hdr[blok].next;
          } else {
            hdr := hdr[last := hdr[last].(next := hdr[blok].next)];
          }
          hdr := hdr[blok := hdr[blok].(next := 0)];
          free := free[..k] + free[k + 1..];
          TakenIntro(old(hdr), old(freelist), old(free), k, hdr, freelist, free);
          return blok;
        }
        last := blok;
        blok := hdr[blok].next;
        k := k + 1;
        ChainAt(hdr, freelist, free, k);
      }
      ChainAt(hdr, freelist, free, k);
      FitFrom(hdr, free, need, k);
      return 0;
    }

    lemma FreeParts()
      ensures FreeOk() <==> Chain(hdr, freelist, free) && forall b :: b in free ==> b in hdr && hdr[b].avail == b + HDR
    {
      hide Chain;
    }

    /** GOOMBAServer_new_block: the first block of the free list that is large enough, or a new one
        at mem. */
    method NewBlock(minSize: int, mem: int) returns (b: int)
      requires FreeOk() && Apart(hdr) && minSize >= 0 && Unused(hdr, mem, minSize + MINFREE)
      modifies `freelist, `hdr, `free
      ensures FreeOk() && Apart(hdr)
      ensures b in hdr && b !in free && hdr[b].next == 0 && hdr[b].avail == b + HDR
        && hdr[b].endp - hdr[b].avail >= minSize + MINFREE && MINFREE == 8192
      ensures var k := FirstFit(old(hdr), old(free), minSize + MINFREE);
              if k < |old(free)| then b == old(free)[k] && free == old(free)[..k] + old(free)[k + 1..]
                && hdr.Keys == old(hdr).Keys
              else b == mem && b !in old(hdr) && free == old(free) && hdr.Keys == old(hdr).Keys + {mem}
      ensures forall c :: c in old(hdr) ==>
        c in hdr && hdr[c].endp == old(hdr)[c].endp && hdr[c].avail == old(hdr)[c].avail
      ensures forall c :: c in old(hdr) && c !in old(free) ==> hdr[c] == old(hdr)[c]
    {
      hide Chain, FirstFit, Apart, Taken;
      b := TakeFree(minSize + MINFREE);
      ghost var k := FirstFit(old(hdr), old(free), minSize + MINFREE);
      if b != 0 {
        TakenParts(old(hdr), old(freelist), old(free), k, hdr, freelist, free, minSize + MINFREE);
        ApartKept(old(hdr), hdr);
        return b;
      }
      if k < |old(free)| { TakenNotNull(old(hdr), old(freelist), old(free), k); }
      MallocBlock(minSize + MINFREE, mem);
      NewApart(old(hdr), freelist, free, hdr, mem);
      return mem;
    }
  }

  /** Block k of the free list has been taken out. */
  ghost predicate Taken(hdr: Memory, freelist: int, free: seq<int>, k: nat, hdr': Memory, freelist': int,
          free': seq<int>) {
    && k < |free| && Chain(hdr, freelist, free) && Chain(hdr', freelist', free') && free' == free[..k] + free[k + 1..]
    && free[k] in hdr && free[k] !in free' && hdr'.Keys == hdr.Keys && hdr'[free[k]].next == 0
    && forall c :: c in hdr ==>
      hdr'[c].endp == hdr[c].endp && hdr'[c].avail == hdr[c].avail && (c !in free ==> hdr'[c] == hdr[c])
  }

  lemma TakenIntro(hdr: Memory, freelist: int, free: seq<int>, k: nat, hdr': Memory, freelist': int, free': seq<int>)
    requires k < |free| && Chain(hdr, freelist, free) && free' == free[..k] + free[k + 1..]
    requires free[k] in hdr && free[k] !in free' && (k > 0 ==> free[k - 1] in hdr && free[k - 1] != free[k])
    requires freelist' == if k == 0 then hdr[free[k]].next else freelist
    requires var mid := (if k == 0 then hdr else hdr[free[k - 1] := hdr[free[k - 1]].(next := hdr[free[k]].next)]);
             hdr' == mid[free[k] := mid[free[k]].(next := 0)]
    requires Chain(hdr', freelist', free')
    ensures Taken(hdr, freelist, free, k, hdr', freelist', free')
  {
    hide Chain;
  }

  lemma TakenParts(hdr: Memory, freelist: int, free: seq<int>, k: nat, hdr': Memory, freelist': int, free': seq<int>,
          need: int)
    requires Taken(hdr, freelist, free, k, hdr', freelist', free') && k == FirstFit(hdr, free, need)
    requires forall b :: b in free ==> b in hdr && hdr[b].avail == b + HDR
    ensures Chain(hdr', freelist', free') && free' == free[..k] + free[k + 1..] && hdr'.Keys == hdr.Keys
    ensures forall b :: b in free' ==> b in hdr' && hdr'[b].avail == b + HDR
    ensures free[k] in hdr' && free[k] !in free' && hdr'[free[k]].next == 0 && hdr'[free[k]].avail == free[k] + HDR
    ensures hdr'[free[k]].endp - hdr'[free[k]].avail >= need
    ensures forall c :: c in hdr ==>
      hdr'[c].endp == hdr[c].endp && hdr'[c].avail == hdr[c].avail && (c !in free ==> hdr'[c] == hdr[c])
  {
    hide Chain;
    FirstFits(hdr, free, need);
    assert free[k] in free;
  }

  lemma TakenNotNull(hdr: Memory, freelist: int, free: seq<int>, k: nat)
    requires Chain(hdr, freelist, free) && k < |free|
    ensures free[k] != 0
  {
    SegNext(hdr, freelist, free, 0, k);
  }

  lemma ApartKept(hdr: Memory, hdr': Memory)
    requires Apart(hdr) && hdr'.Keys == hdr.Keys
    requires forall c :: c in hdr ==> hdr'[c].endp == hdr[c].endp && hdr'[c].avail == hdr[c].avail
    ensures Apart(hdr')
  {
  }

  lemma NewApart(hdr: Memory, freelist: int, free: seq<int>, hdr': Memory, mem: int)
    requires Chain(hdr, freelist, free) && mem !in hdr && hdr'.Keys == hdr.Keys + {mem}
    requires forall c :: c in hdr ==> hdr'[c] == hdr[c]
    ensures Chain(hdr', freelist, free) && mem !in free
  {
    hide Seg;
    forall b | b in free ensures b in hdr { SegIn(hdr, freelist, free, 0, b); }
    SegSame(hdr, hdr', freelist, free, 0);
  }

  lemma ChainAt(hdr: Memory, head: int, s: seq<int>, k: nat)
    requires Chain(hdr, head, s) && k <= |s|
    ensures s == [] ==> head == 0
    ensures s != [] ==> head == s[0]
    ensures k < |s| ==> s[k] in hdr && s[k] != 0 && hdr[s[k]].next == if k + 1 < |s| then s[k + 1] else 0
    ensures k > 0 ==> s[k - 1] != 0 && s[k - 1] in hdr
  {
    if k < |s| { SegNext(hdr, head, s, 0, k); }
    if k > 0 { SegNext(hdr, head, s, 0, k - 1); }
  }

  lemma FitFrom(hdr: Memory, s: seq<int>, need: int, k: nat)
    requires k <= |s|
    ensures s[0..] == s
    ensures FirstFit(hdr, s[k..], need) ==
      if k == |s| then 0 else if s[k] in hdr && need <= hdr[s[k]].endp - hdr[s[k]].avail then 0
      else 1 + FirstFit(hdr, s[k + 1..], need)
  {
    if k < |s| { assert s[k..][1..] == s[k + 1..]; }
  }

  /** The index of the first block of free that has `need` bytes, or the length of free. */
  ghost function FirstFit(hdr: Memory, free: seq<int>, need: int): (k: nat)
    ensures k <= |free|
  {
    if free == [] then 0
    else if free[0] in hdr && need <= hdr[free[0]].endp - hdr[free[0]].avail then 0
    else 1 + FirstFit(hdr, free[1..], need)
  }

  /** That block has the bytes, and those in front of it have not. */
  lemma {:induction false} FirstFits(hdr: Memory, free: seq<int>, need: int)
    ensures var k := FirstFit(hdr, free, need);
      && (k < |free| ==> free[k] in hdr && hdr[free[k]].endp - hdr[free[k]].avail >= need)
      && forall j :: 0 <= j < k && free[j] in hdr ==> hdr[free[j]].endp - hdr[free[j]].avail < need
  {
    if free != [] {
      FirstFits(hdr, free[1..], need);
      assert forall j :: 0 < j < |free| ==> free[j] == free[1..][j - 1];
    }
  }

  /** Block k of a chain is taken out of it. */
  lemma Unlinked(hdr: Memory, head: int, s: seq<int>, k: nat)
    requires Chain(hdr, head, s) && k < |s|
    ensures s[k] in hdr && s[k] !in s[..k] + s[k + 1..] && hdr[s[k]].next == (if k + 1 < |s| then s[k + 1] else 0)
    ensures k > 0 ==> s[k - 1] in hdr && s[k - 1] != s[k] && s[k - 1] != 0
    ensures var hdr' := (if k == 0 then hdr else hdr[s[k - 1] := hdr[s[k - 1]].(next := hdr[s[k]].next)]);
            var head' := if k == 0 then hdr[s[k]].next else head;
            Chain(hdr'[s[k] := hdr'[s[k]].(next := 0)], head', s[..k] + s[k + 1..])
  {
    hide Seg;
    SegNext(hdr, head, s, 0, k);
    var mid := SegSplit(hdr, head, s, 0, k);
    var end := SegSplit(hdr, mid, s[k..], 0, 1);
    assert s[k..][1..] == s[k + 1..] && s[k..][..1] == [s[k]];
    var a, b := s[..k], s[k + 1..];
    forall x | x in a ensures x in hdr && x != 0 { SegIn(hdr, head, a, mid, x); }
    forall x | x in b ensures x in hdr && x in s[k..] { SegIn(hdr, end, b, 0, x); }
    assert s[k] in s[k..];
    var hdr' := if k == 0 then hdr else hdr[s[k - 1] := hdr[s[k - 1]].(next := hdr[s[k]].next)];
    var hdr'' := hdr'[s[k] := hdr'[s[k]].(next := 0)];
    SegSame(hdr, hdr'', end, b, 0);
    if k == 0 {
      assert a + b == b;
    } else {
      assert a[|a| - 1] == s[k - 1] && s[k - 1] in a;
      SegRetarget(hdr, head, a, mid, hdr'', end);
      SegJoin(hdr'', head, a, end, b, 0);
    }
  }

  lemma EmptyChain(hdr: Memory, head: int, s: seq<int>)
    requires Chain(hdr, head, s) && head == 0
    ensures s == []
  {
  }

  lemma NonEmptyChain(hdr: Memory, head: int, s: seq<int>)
    requires Chain(hdr, head, s) && head != 0
    ensures s != [] && s[0] == head && head in hdr
  {
  }

  lemma LastOfChain(hdr: Memory, head: int, s: seq<int>, k: nat)
    requires Chain(hdr, head, s) && k < |s| && s[k] in hdr && hdr[s[k]].next == 0
    ensures k == |s| - 1
  {
    SegNext(hdr, head, s, 0, k);
    if k + 1 < |s| { SegNext(hdr, head, s, 0, k + 1); }
  }

  lemma FreedChain(hdr: Memory, head: int, bs: seq<int>, hdr': Memory, oldFree: int, free: seq<int>)
    requires Chain(hdr, head, bs) && bs != [] && Chain(hdr, oldFree, free) && forall b :: b in bs ==> b !in free
    requires hdr'.Keys == hdr.Keys && forall b :: b in hdr && b != bs[|bs| - 1] ==> hdr'[b].next == hdr[b].next
    requires bs[|bs| - 1] in hdr && hdr'[bs[|bs| - 1]].next == oldFree
    ensures Chain(hdr', head, bs + free)
  {
    hide Seg;
    forall b | b in bs ensures b in hdr { SegIn(hdr, head, bs, 0, b); }
    forall b | b in free ensures b in hdr { SegIn(hdr, oldFree, free, 0, b); }
    assert bs[|bs| - 1] in bs;
    SegRetarget(hdr, head, bs, 0, hdr', oldFree);
    SegSame(hdr, hdr', oldFree, free, 0);
    SegJoin(hdr', head, bs, oldFree, free, 0);
  }
}
