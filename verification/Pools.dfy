/** The pools of src/pool.c: each has a chain of blocks, and they form a tree of sub-pools. */
module Pools {
  import opened PoolBlocks

  /** Bytes of a pool's structure, which lies at the beginning of its first block. */
  const POOL_HDR: int := 72

  datatype Pool = Pool(first: int, last: int, sub: int, subNext: int, subPrev: int, parent: int, freeAvail: int)

  /** What an allocation has handed out and no clear has taken back: [addr, addr + size) in a block. */
  datatype Region = Region(pool: int, block: int, addr: int, size: int)

  /** Everything there is.  chains, kids and path list the blocks of each live pool, its sub-pools and
      its ancestors with itself; owner tells where a block is: in the free list (0) or in a pool. */
  datatype View = View(hdr: Memory, freelist: int, free: seq<int>, pools: map<int, Pool>, chains: map<int, seq<int>>,
                       kids: map<int, seq<int>>, path: map<int, seq<int>>, owner: map<int, int>, regions: set<Region>)

  function Last(s: seq<int>): int
    requires s != []
  {
    s[|s| - 1]
  }

  /** Every block is in exactly one place. */
  ghost predicate Owned(v: View) {
    && v.owner.Keys == v.hdr.Keys && 0 !in v.chains
    && (forall b :: b in v.owner ==>
      if v.owner[b] == 0 then b in v.free else v.owner[b] in v.chains && b in v.chains[v.owner[b]])
    && (forall b :: b in v.free ==> b in v.owner && v.owner[b] == 0)
    && (forall p, b :: p in v.chains && b in v.chains[p] ==> b in v.owner && v.owner[b] == p)
  }

  ghost predicate FreeOk(v: View) {
    Chain(v.hdr, v.freelist, v.free) && forall b :: b in v.free ==> b in v.hdr && v.hdr[b].avail == b + HDR
  }

  /** The blocks of the pool p. */
  ghost predicate BlocksAt(v: View, p: int)
    requires p in v.chains
  {
    var s := v.chains[p];
    && s != [] && Chain(v.hdr, s[0], s)
    && p in v.pools && p == s[0] + HDR && v.pools[p].first == s[0] && v.pools[p].last == Last(s)
    && v.pools[p].freeAvail == p + POOL_HDR
    && s[0] in v.hdr && p + POOL_HDR <= v.hdr[s[0]].avail
  }

  ghost predicate NoDup(s: seq<int>) {
    forall i, j :: 0 <= i < j < |s| ==> s[i] != s[j]
  }

  ghost predicate LinkAt(pools: map<int, Pool>, p: int, ks: seq<int>, i: int)
    requires 0 <= i < |ks|
  {
    && ks[i] in pools && ks[i] != 0 && pools[ks[i]].parent == p
    && pools[ks[i]].subNext == (if i + 1 < |ks| then ks[i + 1] else 0)
    && pools[ks[i]].subPrev == (if i > 0 then ks[i - 1] else 0)
  }

  /** The sub-pools of p are linked both ways, in order. */
  ghost predicate KidsAt(v: View, p: int)
    requires p in v.pools && p in v.kids
  {
    var ks := v.kids[p];
    && NoDup(ks) && v.pools[p].sub == (if ks == [] then 0 else ks[0])
    && forall i :: 0 <= i < |ks| ==> LinkAt(v.pools, p, ks, i)
  }

  /** p hangs under its parent, if it has one. */
  ghost predicate ParentAt(v: View, p: int)
    requires p in v.pools && p in v.path
  {
    var q := v.pools[p].parent;
    if q == 0 then v.path[p] == [p] && v.pools[p].subNext == 0 && v.pools[p].subPrev == 0
    else q in v.pools && q in v.kids && q in v.path && p in v.kids[q] && v.path[p] == v.path[q] + [p]
  }

  ghost predicate SameKeys(v: View) {
    v.pools.Keys == v.chains.Keys == v.kids.Keys == v.path.Keys
  }

  /** A region lies behind the header of its block, and behind the pool's structure in the first one. */
  ghost predicate RegionAt(v: View, r: Region) {
    && r.pool in v.chains && r.block in v.chains[r.pool] && r.block in v.hdr && r.size >= 1 && v.chains[r.pool] != []
    && r.block + HDR <= r.addr && (r.block == v.chains[r.pool][0] ==> r.pool + POOL_HDR <= r.addr)
    && r.addr + r.size <= v.hdr[r.block].avail
  }

  ghost predicate Disjoint(r: Region, s: Region) {
    r.addr + r.size <= s.addr || s.addr + s.size <= r.addr
  }

  ghost predicate RegionsOk(v: View) {
    && (forall r :: r in v.regions ==> RegionAt(v, r))
    && forall r, s :: r in v.regions && s in v.regions && r != s ==> Disjoint(r, s)
  }

  ghost predicate Ok(v: View) {
    && Apart(v.hdr) && Owned(v) && FreeOk(v) && SameKeys(v) && RegionsOk(v)
    && (forall p :: p in v.chains ==> BlocksAt(v, p))
    && (forall p :: p in v.pools ==> KidsAt(v, p) && ParentAt(v, p))
  }

  // ----- a new pool -----

  /** v' is v with a new pool at p, in the block b, under the parent q. */
  ghost predicate Made(v: View, v': View, p: int, b: int, q: int) {
    && p == b + HDR && p !in v.pools && (q == 0 || (q in v.pools && q in v.kids && q in v.path))
    && b in v'.hdr && b !in v'.free && v'.hdr[b].next == 0 && v'.hdr[b].avail == p + POOL_HDR <= v'.hdr[b].endp
    && (b in v.owner ==> v.owner[b] == 0)
    && v'.hdr.Keys == v.hdr.Keys + {b}
    && (forall c :: c in v.hdr && c != b ==> v'.hdr[c].endp == v.hdr[c].endp && v'.hdr[c].avail == v.hdr[c].avail)
    && (forall c :: c in v.hdr && c !in v.free ==> v'.hdr[c] == v.hdr[c])
    && (forall c :: c in v'.free <==> c in v.free && c != b)
    && v'.owner == v.owner[b := p] && v'.regions == v.regions
    && v'.chains == v.chains[p := [b]]
    && v'.path == v.path[p := if q == 0 then [p] else v.path[q] + [p]]
    && v'.kids == (if q == 0 then v.kids else v.kids[q := [p] + v.kids[q]])[p := []]
    && v'.pools == (if q == 0 then v.pools else Hung(v.pools, p, q))[p :=
      Pool(b, b, 0, if q == 0 then 0 else v.pools[q].sub, 0, q, p + POOL_HDR)]
  }

  /** The pools once p has become the first sub-pool of q. */
  function Hung(pools: map<int, Pool>, p: int, q: int): map<int, Pool>
    requires q in pools
  {
    var head := pools[q].sub;
    var pools' := if head in pools then pools[head := pools[head].(subPrev := p)] else pools;
    pools'[q := pools'[q].(sub := p)]
  }

  lemma MadeOwned(v: View, v': View, p: int, b: int, q: int)
    requires Made(v, v', p, b, q) && Owned(v) && SameKeys(v) && p != 0
    ensures Owned(v')
  {
  }

  lemma MadeBlocks(v: View, v': View, p: int, b: int, q: int, x: int)
    requires Made(v, v', p, b, q) && Owned(v) && SameKeys(v) && b != 0 && x in v'.chains
    requires x in v.chains ==> BlocksAt(v, x)
    ensures BlocksAt(v', x)
  {
    hide Chain;
    if x == p {
      assert Chain(v'.hdr, b, [b]) by { OneBlock(v'.hdr, b); }
    } else {
      var s := v.chains[x];
      assert Chain(v'.hdr, s[0], s) by { ChainKept(v.hdr, v'.hdr, s[0], s); }
    }
  }

  lemma OneBlock(hdr: Memory, b: int)
    requires b in hdr && b != 0 && hdr[b].next == 0
    ensures Chain(hdr, b, [b])
  {
    assert [b][1..] == [];
  }

  lemma ChainKept(hdr: Memory, hdr': Memory, head: int, s: seq<int>)
    requires Chain(hdr, head, s) && forall b :: b in s ==> b in hdr && b in hdr' && hdr'[b].next == hdr[b].next
    ensures Chain(hdr', head, s)
  {
    SegSame(hdr, hdr', head, s, 0);
  }

  lemma MadeKids(v: View, v': View, p: int, b: int, q: int, x: int)
    requires Made(v, v', p, b, q) && SameKeys(v) && p != 0 && 0 !in v.pools && x in v'.pools
    requires forall y :: y in v.pools ==> KidsAt(v, y) && ParentAt(v, y)
    ensures x in v'.kids && KidsAt(v', x)
  {
    hide Owned, Chain, Hung;
    HungKeys(v.pools, p, q);
    if x != p {
      assert KidsAt(v, x);
      if x == q {
        MadeUnder(v, v', p, b, q);
      } else {
        var ks := v.kids[x];
        if q != 0 { HungOther(v.pools, p, q, x); }
        forall i | 0 <= i < |ks| ensures LinkAt(v'.pools, x, ks, i) {
          assert LinkAt(v.pools, x, ks, i);
          if q != 0 {
            HungOther(v.pools, p, q, ks[i]);
            if v.kids[q] != [] { assert KidsAt(v, q) && LinkAt(v.pools, q, v.kids[q], 0); }
          }
        }
      }
    }
  }

  lemma HungOther(pools: map<int, Pool>, p: int, q: int, y: int)
    requires q in pools && y in pools
    ensures var hung := Hung(pools, p, q);
      && y in hung && hung[y].parent == pools[y].parent && hung[y].subNext == pools[y].subNext
      && hung[y].sub == (if y == q then p else pools[y].sub)
      && hung[y].subPrev == if y == pools[q].sub then p else pools[y].subPrev
  {
  }

  lemma MadeUnder(v: View, v': View, p: int, b: int, q: int)
    requires Made(v, v', p, b, q) && SameKeys(v) && p != 0 && q != 0 && 0 !in v.pools && KidsAt(v, q)
    ensures q in v'.kids && q in v'.pools && KidsAt(v', q)
  {
    hide Owned, Chain, Hung;
    var ks, ks' := v.kids[q], v'.kids[q];
    assert ks' == [p] + ks;
    HungOther(v.pools, p, q, q);
    forall i | 0 <= i < |ks'| ensures LinkAt(v'.pools, q, ks', i) {
      if i > 0 {
        assert LinkAt(v.pools, q, ks, i - 1);
        HungOther(v.pools, p, q, ks[i - 1]);
      }
      if i > 1 { assert ks[i - 1] != ks[0]; }
    }
    forall i, j | 0 <= i < j < |ks'| ensures ks'[i] != ks'[j] {
      assert LinkAt(v.pools, q, ks, j - 1);
    }
  }

  lemma MadeParent(v: View, v': View, p: int, b: int, q: int, x: int)
    requires Made(v, v', p, b, q) && SameKeys(v) && p != 0 && 0 !in v.pools && x in v'.pools
    requires forall y :: y in v.pools ==> KidsAt(v, y) && ParentAt(v, y)
    ensures x in v'.path && ParentAt(v', x)
  {
    hide Owned, Chain, NoDup;
    if q != 0 { assert KidsAt(v, q); }
    if x != p {
      assert ParentAt(v, x);
      if q != 0 && v.kids[q] != [] { assert LinkAt(v.pools, q, v.kids[q], 0); }
      var y := v.pools[x].parent;
      assert v'.pools[x].parent == y;
      if y != 0 { assert x in v'.kids[y]; }
    }
  }

  lemma MadeRegions(v: View, v': View, p: int, b: int, q: int)
    requires Made(v, v', p, b, q) && RegionsOk(v) && Owned(v) && SameKeys(v)
    ensures RegionsOk(v')
  {
    forall r | r in v'.regions ensures RegionAt(v', r) { assert RegionAt(v, r); }
  }

  // ----- an allocation -----

  /** The size that GOOMBAServer_palloc makes of a request: whole alignment units, and 1 for no bytes. */
  function SizeOf(req: nat): (n: int)
    ensures n >= req && n >= 1 && (req >= 1 ==> n % ALIGN == 0)
  {
    if req == 0 then 1 else ALIGN * (1 + (req - 1) / ALIGN)
  }

  /** Requests are rounded up to the next multiple of 8; headers take whole alignment units too. */
  lemma SizeIsLeast(req: nat)
    ensures req > 0 ==> SizeOf(req) % 8 == 0 && req <= SizeOf(req) < req + 8
    ensures SizeOf(0) == 1 && HDR == 3 * 8 && POOL_HDR == 9 * 8 && MINFREE == 8192
  {
  }

  /** The last block of a had room. */
  ghost predicate Fitted(v: View, v': View, a: int, size: int) {
    && a in v.pools && v.pools[a].last in v.hdr && size >= 1
    && var b := v.pools[a].last;
    && v.hdr[b].avail + size <= v.hdr[b].endp
    && v' == v.(hdr := v.hdr[b := v.hdr[b].(avail := v.hdr[b].avail + size)],
                regions := v.regions + {Region(a, b, v.hdr[b].avail, size)})
  }

  lemma FittedOk(v: View, v': View, a: int, size: int)
    requires Ok(v) && Fitted(v, v', a, size)
    ensures Ok(v')
  {
    hide Chain, Apart, Owned, FreeOk, BlocksAt, KidsAt, ParentAt, RegionsOk;
    assert BlocksAt(v, a);
    FittedLists(v, v', a, size);
    forall p | p in v'.chains ensures BlocksAt(v', p) { FittedBlocks(v, v', a, size, p); }
    forall p | p in v'.pools ensures KidsAt(v', p) && ParentAt(v', p) { FittedTree(v, v', p); }
    FittedRegions(v, v', a, size);
  }

  lemma FittedLists(v: View, v': View, a: int, size: int)
    requires Apart(v.hdr) && Owned(v) && FreeOk(v) && a in v.chains && BlocksAt(v, a) && Fitted(v, v', a, size)
    ensures Apart(v'.hdr) && Owned(v') && FreeOk(v')
  {
    hide Chain, Apart;
    assert Last(v.chains[a]) in v.chains[a];
    ChainKept(v.hdr, v'.hdr, v.freelist, v.free);
    BlockAhead(v.hdr, v.pools[a].last);
    ApartRaised(v.hdr, v'.hdr, v.pools[a].last);
  }

  lemma BlockAhead(hdr: Memory, b: int)
    requires Apart(hdr) && b in hdr
    ensures b + HDR <= hdr[b].avail <= hdr[b].endp
  {
  }

  /** More of block b, or less, is in use. */
  lemma ApartRaised(hdr: Memory, hdr': Memory, b: int)
    requires Apart(hdr) && hdr'.Keys == hdr.Keys && b in hdr && b + HDR <= hdr'[b].avail <= hdr'[b].endp
    requires forall c :: c in hdr ==> hdr'[c].endp == hdr[c].endp && (c != b ==> hdr'[c].avail == hdr[c].avail)
    ensures Apart(hdr')
  {
  }

  lemma FittedBlocks(v: View, v': View, a: int, size: int, p: int)
    requires Fitted(v, v', a, size) && p in v.chains && BlocksAt(v, p) && Owned(v)
    ensures BlocksAt(v', p)
  {
    hide Chain;
    ChainKept(v.hdr, v'.hdr, v.chains[p][0], v.chains[p]);
  }

  lemma FittedTree(v: View, v': View, p: int)
    requires p in v.pools && p in v.kids && p in v.path && v'.pools == v.pools && v'.kids == v.kids && v'.path == v.path
    requires KidsAt(v, p) && ParentAt(v, p)
    ensures KidsAt(v', p) && ParentAt(v', p)
  {
  }

  lemma FittedRegions(v: View, v': View, a: int, size: int)
    requires Apart(v.hdr) && Owned(v) && a in v.chains && BlocksAt(v, a) && RegionsOk(v) && Fitted(v, v', a, size)
    ensures RegionsOk(v')
  {
    hide Chain;
    assert Last(v.chains[a]) in v.chains[a];
    forall r | r in v'.regions ensures RegionAt(v', r) { if r in v.regions { assert RegionAt(v, r); } }
    forall r, s | r in v'.regions && s in v'.regions && r != s ensures Disjoint(r, s) {
      if r in v.regions && s in v.regions {
      } else if r in v.regions {
        assert RegionAt(v, r);
      } else {
        assert RegionAt(v, s);
      }
    }
  }

  /** The pool a has got the block b. */
  ghost predicate Grown(v: View, v': View, a: int, b: int, size: int) {
    && a in v.pools && a in v.chains && v.chains[a] != [] && size >= 1
    && b in v'.hdr && b !in v'.free && v'.hdr[b].next == 0 && v'.hdr[b].avail == b + HDR + size <= v'.hdr[b].endp
    && (b in v.owner ==> v.owner[b] == 0)
    && v'.hdr.Keys == v.hdr.Keys + {b}
    && (forall c :: c in v.hdr && c != b ==> v'.hdr[c].endp == v.hdr[c].endp && v'.hdr[c].avail == v.hdr[c].avail)
    && (forall c :: c in v.hdr && c !in v.free && c != Last(v.chains[a]) ==> v'.hdr[c] == v.hdr[c])
    && Last(v.chains[a]) in v'.hdr && v'.hdr[Last(v.chains[a])].next == b
    && (forall c :: c in v'.free <==> c in v.free && c != b)
    && v'.owner == v.owner[b := a] && v'.chains == v.chains[a := v.chains[a] + [b]]
    && v'.pools == v.pools[a := v.pools[a].(last := b)] && v'.kids == v.kids && v'.path == v.path
    && v'.regions == v.regions + {Region(a, b, b + HDR, size)}
  }

  lemma GrownOwned(v: View, v': View, a: int, b: int, size: int)
    requires Grown(v, v', a, b, size) && Owned(v)
    ensures Owned(v')
  {
  }

  lemma GrownBlocks(v: View, v': View, a: int, b: int, size: int, x: int)
    requires Grown(v, v', a, b, size) && Owned(v) && b != 0 && x in v'.chains && BlocksAt(v, x) && BlocksAt(v, a)
    ensures BlocksAt(v', x)
  {
    hide Chain;
    var s := v.chains[x];
    if x == a {
      assert Last(s) in s;
      GrownChain(v.hdr, v'.hdr, s, b);
    } else {
      assert Last(v.chains[a]) in v.chains[a];
      ChainKept(v.hdr, v'.hdr, s[0], s);
    }
  }

  lemma GrownChain(hdr: Memory, hdr': Memory, s: seq<int>, b: int)
    requires s != [] && Chain(hdr, s[0], s) && b !in s && b != 0 && b in hdr' && hdr'[b].next == 0
    requires forall c :: c in s ==> c in hdr && c in hdr' && (c != Last(s) ==> hdr'[c].next == hdr[c].next)
    requires hdr'[Last(s)].next == b
    ensures Chain(hdr', s[0], s + [b])
  {
    SegRetarget(hdr, s[0], s, 0, hdr', b);
    OneBlock(hdr', b);
    SegJoin(hdr', s[0], s, b, [b], 0);
    hide Seg;
  }

  lemma GrownTree(v: View, v': View, a: int, b: int, size: int, x: int)
    requires Grown(v, v', a, b, size) && SameKeys(v) && x in v.pools && KidsAt(v, x) && ParentAt(v, x)
    ensures KidsAt(v', x) && ParentAt(v', x)
  {
    forall i | 0 <= i < |v'.kids[x]|
      ensures LinkAt(v'.pools, x, v'.kids[x], i) { assert LinkAt(v.pools, x, v.kids[x], i); }
  }

  lemma GrownRegions(v: View, v': View, a: int, b: int, size: int)
    requires Grown(v, v', a, b, size) && Ok(v) && Apart(v'.hdr)
    ensures RegionsOk(v')
  {
    hide Chain, Ok, Owned, Apart, RegionAt, Disjoint;
    var made := Region(a, b, b + HDR, size);
    forall r | r in v.regions ensures RegionAt(v', r) && Disjoint(r, made) && Disjoint(made, r) {
      RegionParts(v, r);
      GrownRegion(v, v', a, b, size, r);
    }
    NewRegion(v, v', a, b, size);
    RegionsApart(v);
  }

  lemma RegionParts(v: View, r: Region)
    requires Ok(v) && r in v.regions
    ensures RegionAt(v, r) && Apart(v.hdr) && Owned(v) && r.block in v.owner && v.owner[r.block] == r.pool
  {
    hide Chain, KidsAt, ParentAt, FreeOk, BlocksAt, Apart;
    assert RegionAt(v, r);
  }

  lemma RegionsApart(v: View)
    requires Ok(v)
    ensures forall r, s :: r in v.regions && s in v.regions && r != s ==> Disjoint(r, s)
  {
    hide Chain, KidsAt, ParentAt, FreeOk, BlocksAt, Apart, Owned, RegionAt, Disjoint;
  }

  lemma NewRegion(v: View, v': View, a: int, b: int, size: int)
    requires Grown(v, v', a, b, size) && Ok(v)
    ensures RegionAt(v', Region(a, b, b + HDR, size))
  {
    hide Chain, KidsAt, ParentAt, FreeOk, RegionsOk, Apart;
    assert BlocksAt(v, a);
    assert v.chains[a][0] in v.chains[a];
    assert v'.chains[a][|v.chains[a]|] == b;
  }

  lemma GrownRegion(v: View, v': View, a: int, b: int, size: int, r: Region)
    requires Grown(v, v', a, b, size) && RegionAt(v, r) && Apart(v'.hdr) && Owned(v)
    ensures RegionAt(v', r) && Disjoint(r, Region(a, b, b + HDR, size)) && Disjoint(Region(a, b, b + HDR, size), r)
  {
    hide Chain;
    assert r.block != b && r.block in v.hdr && r.block in v'.hdr;
    if r.pool == a { assert v'.chains[a][0] == v.chains[a][0]; }
  }

  // ----- clearing -----

  /** The pool a, which has no sub-pools any more, has given back all but its first block. */
  ghost predicate Cleared(v: View, v': View, a: int) {
    && a in v.pools && a in v.chains && a in v.kids && v.chains[a] != [] && v.kids[a] == []
    && var first, rest := v.chains[a][0], v.chains[a][1..];
    && v'.hdr.Keys == v.hdr.Keys && first in v.hdr
    && (forall b :: b in v.hdr ==> v'.hdr[b].endp == v.hdr[b].endp)
    && (forall b :: b in v.hdr && b !in rest && b != first ==> v'.hdr[b] == v.hdr[b])
    && (forall b :: b in rest && b in v.hdr ==> v'.hdr[b].avail == b + HDR)
    && v'.hdr[first].next == 0 && v'.hdr[first].avail == v.pools[a].freeAvail
    && v'.free == rest + v.free && Chain(v'.hdr, v'.freelist, v'.free)
    && v'.chains == v.chains[a := [first]]
    && v'.pools == v.pools[a := v.pools[a].(sub := 0, last := first)] && v'.kids == v.kids && v'.path == v.path
    && v'.owner == (map b | b in v.owner :: if b in rest then 0 else v.owner[b])
    && v'.regions == (set r | r in v.regions && r.pool != a)
  }

  lemma FirstApart(v: View, a: int)
    requires a in v.chains && BlocksAt(v, a)
    ensures var s := v.chains[a]; s[0] !in s[1..] && s[0] in v.hdr && s == [s[0]] + s[1..]
  {
  }

  lemma ClearedOwned(v: View, v': View, a: int)
    requires a in v.chains && v.chains[a] != [] && Owned(v) && v.chains[a][0] !in v.chains[a][1..]
      && v'.hdr.Keys == v.hdr.Keys
    requires v'.free == v.chains[a][1..] + v.free && v'.chains == v.chains[a := [v.chains[a][0]]]
    requires v'.owner == (map b | b in v.owner :: if b in v.chains[a][1..] then 0 else v.owner[b])
    ensures Owned(v')
  {
    hide Owned;
    var s := v.chains[a];
    SplitOff(s, v.free, v'.free);
    ClearedOwners(v, v', a, s[0], set b | b in s[1..]);
  }

  lemma SplitOff(s: seq<int>, free: seq<int>, free': seq<int>)
    requires s != [] && free' == s[1..] + free
    ensures forall b :: b in s <==> b == s[0] || b in s[1..]
    ensures forall b :: b in free' <==> b in s[1..] || b in free
  {
  }

  lemma ClearedOwners(v: View, v': View, a: int, first: int, rest: set<int>)
    requires a in v.chains && Owned(v) && first !in rest && v'.hdr.Keys == v.hdr.Keys
    requires forall b :: b in v.chains[a] <==> b == first || b in rest
    requires v'.chains == v.chains[a := [first]] && (forall b :: b in v'.free <==> b in rest || b in v.free)
    requires v'.owner.Keys == v.owner.Keys && forall b :: b in v.owner ==>
      v'.owner[b] == if b in rest then 0 else v.owner[b]
    ensures Owned(v')
  {
  }

  lemma ClearedBlocks(v: View, v': View, a: int, x: int)
    requires Cleared(v, v', a) && Owned(v) && Apart(v.hdr) && x in v.chains && BlocksAt(v, x) && BlocksAt(v, a)
    ensures BlocksAt(v', x)
  {
    hide Chain;
    var s := v.chains[x];
    FirstApart(v, a);
    if x == a {
      assert 0 < s[0];
      OneBlock(v'.hdr, s[0]);
    } else {
      forall b | b in s ensures b in v.hdr && v'.hdr[b] == v.hdr[b] {
        assert v.owner[b] == x;
        assert b !in v.chains[a];
      }
      ChainKept(v.hdr, v'.hdr, s[0], s);
    }
  }

  lemma ClearedTree(v: View, v': View, a: int, x: int)
    requires Cleared(v, v', a) && SameKeys(v) && x in v.pools && KidsAt(v, x) && ParentAt(v, x)
    ensures KidsAt(v', x) && ParentAt(v', x)
  {
    hide Chain;
    forall i | 0 <= i < |v'.kids[x]|
      ensures LinkAt(v'.pools, x, v'.kids[x], i) { assert LinkAt(v.pools, x, v.kids[x], i); }
  }

  lemma ClearedOk(v: View, v': View, a: int)
    requires Ok(v) && Cleared(v, v', a)
    ensures Ok(v')
  {
    hide Chain, KidsAt, ParentAt;
    assert BlocksAt(v, a);
    FirstApart(v, a);
    ClearedOwned(v, v', a);
    forall x | x in v'.chains ensures BlocksAt(v', x) { assert BlocksAt(v, x); ClearedBlocks(v, v', a, x); }
    forall x | x in v'.pools ensures KidsAt(v', x) && ParentAt(v', x) { ClearedTree(v, v', a, x); }
    ClearedRest(v, v', a);
  }

  lemma ClearedRest(v: View, v': View, a: int)
    requires Ok(v) && Cleared(v, v', a) && BlocksAt(v, a) && v.chains[a][0] !in v.chains[a][1..]
    ensures Apart(v'.hdr) && FreeOk(v') && SameKeys(v') && RegionsOk(v')
  {
    hide *;
    OkIs(v);
    ClearedKeys(v, v', a);
    ClearedFree(v, v', a);
    ClearedRegions(v, v', a);
  }

  lemma OkIs(v: View)
    requires Ok(v)
    ensures Apart(v.hdr) && Owned(v) && FreeOk(v) && SameKeys(v) && RegionsOk(v)
  {
    hide Apart, Owned, FreeOk, SameKeys, RegionsOk;
  }

  lemma ClearedKeys(v: View, v': View, a: int)
    requires Apart(v.hdr) && SameKeys(v) && Cleared(v, v', a) && BlocksAt(v, a)
    ensures Apart(v'.hdr) && SameKeys(v')
  {
    hide Chain, BlocksAt, Apart;
    FirstHeader(v, a);
    ClearedApart(v.hdr, v'.hdr, v.chains[a][0], v.chains[a][1..], v.pools[a].freeAvail);
  }

  lemma FirstHeader(v: View, a: int)
    requires a in v.chains && BlocksAt(v, a)
    ensures v.chains[a][0] + HDR <= v.pools[a].freeAvail <= v.hdr[v.chains[a][0]].avail
  {
  }

  lemma ClearedApart(hdr: Memory, hdr': Memory, first: int, rest: seq<int>, avail: int)
    requires Apart(hdr) && hdr'.Keys == hdr.Keys && first in hdr && first + HDR <= avail <= hdr[first].avail
    requires forall b :: b in hdr ==> hdr'[b].endp == hdr[b].endp
    requires forall b :: b in hdr && b !in rest && b != first ==> hdr'[b] == hdr[b]
    requires (forall b :: b in rest && b in hdr ==> hdr'[b].avail == b + HDR) && hdr'[first].avail == avail
    ensures Apart(hdr')
  {
    forall b | b in hdr' ensures 0 < b && b % ALIGN == 0 && b + HDR <= hdr'[b].avail <= hdr'[b].endp {
      if b == first { } else if b in rest { }
    }
  }

  lemma ClearedFree(v: View, v': View, a: int)
    requires Owned(v) && FreeOk(v) && Cleared(v, v', a) && BlocksAt(v, a)
    ensures FreeOk(v')
  {
    hide Chain;
    var s := v.chains[a];
    assert s[0] in s;
    forall b | b in v'.free ensures b in v'.hdr && v'.hdr[b].avail == b + HDR {
      if b in s[1..] { assert b in s; }
    }
  }

  lemma ClearedRegions(v: View, v': View, a: int)
    requires Owned(v) && RegionsOk(v) && Cleared(v, v', a)
    ensures RegionsOk(v')
  {
    hide Chain;
    var s := v.chains[a];
    forall r | r in v'.regions ensures RegionAt(v', r) {
      assert RegionAt(v, r);
      assert v.owner[r.block] == r.pool;
      assert r.block !in s;
    }
  }

  // ----- destroying -----

  /** The pools once a has been taken off its siblings and its parent. */
  function Unhung(pools: map<int, Pool>, a: int): map<int, Pool>
    requires a in pools
  {
    var p := pools[a];
    if p.parent == 0 || p.parent !in pools then pools
    else
      var m1 := if pools[p.parent].sub == a then pools[p.parent := pools[p.parent].(sub := p.subNext)] else pools;
      var m2 := if p.subPrev in m1 then m1[p.subPrev := m1[p.subPrev].(subNext := p.subNext)] else m1;
      if p.subNext in m2 then m2[p.subNext := m2[p.subNext].(subPrev := p.subPrev)] else m2
  }

  /** s without its element number k. */
  function Without(s: seq<int>, k: nat): seq<int>
    requires k < |s|
  {
    s[..k] + s[k + 1..]
  }

  /** The cleared pool a, at place k among its parent's sub-pools, is gone. */
  ghost predicate Removed(v: View, v': View, a: int, k: nat) {
    && a in v.pools && a in v.chains && a in v.kids && v.kids[a] == [] && |v.chains[a]| == 1
    && var first, q := v.chains[a][0], v.pools[a].parent;
    && first in v.hdr && v'.hdr.Keys == v.hdr.Keys
    && (forall b :: b in v.hdr ==> v'.hdr[b].endp == v.hdr[b].endp && (b != first ==> v'.hdr[b] == v.hdr[b]))
    && v'.hdr[first].avail == first + HDR
    && v'.free == [first] + v.free && Chain(v'.hdr, v'.freelist, v'.free)
    && v'.chains == v.chains - {a} && v'.pools == Unhung(v.pools, a) - {a} && v'.path == v.path - {a}
    && (q != 0 ==> q in v.pools && q in v.kids && k < |v.kids[q]| && v.kids[q][k] == a)
    && v'.kids == (if q == 0 || q !in v.kids then v.kids
      else v.kids[q := if k < |v.kids[q]| then Without(v.kids[q], k) else v.kids[q]]) - {a}
    && v'.owner == v.owner[first := 0]
    && v'.regions == v.regions && forall r :: r in v.regions ==> r.pool != a
  }

  lemma RemovedOwned(v: View, v': View, a: int, k: nat)
    requires Removed(v, v', a, k) && Owned(v)
    ensures Owned(v')
  {
    hide Chain;
    var first := v.chains[a][0];
    assert v.chains[a] == [first];
    assert first in v.chains[a];
  }

  lemma RemovedBlocks(v: View, v': View, a: int, k: nat, x: int)
    requires Removed(v, v', a, k) && Owned(v) && SameKeys(v) && x in v'.chains && x in v.chains && BlocksAt(v, x)
    ensures BlocksAt(v', x)
  {
    hide Chain, KidsAt;
    var s := v.chains[x];
    assert v.chains[a][0] in v.chains[a];
    UnhungKeeps(v.pools, a, x);
    ChainKept(v.hdr, v'.hdr, s[0], s);
  }

  lemma UnhungKeeps(pools: map<int, Pool>, a: int, x: int)
    requires a in pools && x in pools
    ensures x in Unhung(pools, a) && Unhung(pools, a).Keys == pools.Keys
    ensures var y := Unhung(pools, a)[x];
            y.first == pools[x].first && y.last == pools[x].last && y.freeAvail == pools[x].freeAvail
              && y.parent == pools[x].parent
  {
  }

  /** Another pool's sub-pools. */
  lemma RemovedKids(v: View, v': View, a: int, k: nat, x: int)
    requires Removed(v, v', a, k) && SameKeys(v) && 0 !in v.pools && x in v'.pools && x in v.pools
    requires forall y :: y in v.pools ==> KidsAt(v, y) && ParentAt(v, y)
    ensures x in v'.kids && KidsAt(v', x)
  {
    hide Chain;
    var q := v.pools[a].parent;
    if x == q {
      RemovedHere(v, v', a, k);
    } else {
      RemovedElsewhere(v, v', a, k, x);
    }
  }

  lemma RemovedHere(v: View, v': View, a: int, k: nat)
    requires Removed(v, v', a, k) && SameKeys(v) && 0 !in v.pools && v.pools[a].parent != 0 && v.pools[a].parent != a
    requires KidsAt(v, v.pools[a].parent)
    ensures v.pools[a].parent in v'.kids && v.pools[a].parent in v'.pools && KidsAt(v', v.pools[a].parent)
  {
    hide Chain;
    var q := v.pools[a].parent;
    var ks := v.kids[q];
    var ks' := Without(ks, k);
    UnhungKeeps(v.pools, a, q);
    assert LinkAt(v.pools, q, ks, k);
    forall i | 0 <= i < |ks'| ensures LinkAt(v'.pools, q, ks', i) {
      var j := if i < k then i else i + 1;
      assert ks'[i] == ks[j] && ks[j] != a;
      assert LinkAt(v.pools, q, ks, j);
      UnhungKeeps(v.pools, a, ks[j]);
      UnhungLinks(v.pools, a, q, ks, k, j);
    }
    forall i, j | 0 <= i < j < |ks'| ensures ks'[i] != ks'[j] {
      assert ks[if i < k then i else i + 1] != ks[if j < k then j else j + 1];
    }
    UnhungSub(v.pools, a, q, ks, k);
  }

  lemma UnhungLinks(pools: map<int, Pool>, a: int, q: int, ks: seq<int>, k: nat, j: nat)
    requires a in pools && q in pools && q != 0 && q != a && 0 !in pools && pools[a].parent == q && NoDup(ks)
      && k < |ks| && j < |ks| && j != k && ks[k] == a
    requires forall i :: 0 <= i < |ks| ==> LinkAt(pools, q, ks, i)
    ensures ks[j] in Unhung(pools, a)
    ensures var y := Unhung(pools, a)[ks[j]];
            && y.subNext == (if j + 1 == k then (if k + 1 < |ks| then ks[k + 1] else 0)
                             else if j + 1 < |ks| then ks[j + 1] else 0)
            && y.subPrev == (if j == k + 1 then (if k > 0 then ks[k - 1] else 0) else if j > 0 then ks[j - 1] else 0)
  {
    assert LinkAt(pools, q, ks, j) && LinkAt(pools, q, ks, k);
    if k > 0 { assert LinkAt(pools, q, ks, k - 1); }
    if k + 1 < |ks| { assert LinkAt(pools, q, ks, k + 1); }
  }

  lemma UnhungSub(pools: map<int, Pool>, a: int, q: int, ks: seq<int>, k: nat)
    requires a in pools && q in pools && q != 0 && q != a && 0 !in pools && pools[a].parent == q && NoDup(ks)
      && k < |ks| && ks[k] == a
    requires forall i :: 0 <= i < |ks| ==> LinkAt(pools, q, ks, i)
    requires pools[q].sub == ks[0]
    ensures q in Unhung(pools, a)
    ensures Unhung(pools, a)[q].sub == if k == 0 then (if 1 < |ks| then ks[1] else 0) else ks[0]
  {
    assert LinkAt(pools, q, ks, k);
    if k > 0 { assert LinkAt(pools, q, ks, k - 1); }
  }

  lemma RemovedElsewhere(v: View, v': View, a: int, k: nat, x: int)
    requires Removed(v, v', a, k) && SameKeys(v) && 0 !in v.pools && x in v'.pools && x in v.pools
      && x != v.pools[a].parent
    requires forall y :: y in v.pools ==> KidsAt(v, y) && ParentAt(v, y)
    ensures x in v'.kids && KidsAt(v', x)
  {
    hide Chain, Unhung, Owned;
    assert KidsAt(v, x);
    var ks := v.kids[x];
    Siblings(v, a, k);
    UnhungOther(v.pools, a, x);
    forall i | 0 <= i < |ks| ensures LinkAt(v'.pools, x, ks, i) {
      assert LinkAt(v.pools, x, ks, i);
      UnhungOther(v.pools, a, ks[i]);
    }
  }

  lemma UnhungOther(pools: map<int, Pool>, a: int, y: int)
    requires a in pools && y in pools
    ensures y in Unhung(pools, a) && Unhung(pools, a)[y].parent == pools[y].parent
    ensures y != pools[a].parent ==> Unhung(pools, a)[y].sub == pools[y].sub
    ensures y != pools[a].subPrev ==> Unhung(pools, a)[y].subNext == pools[y].subNext
    ensures y != pools[a].subNext ==> Unhung(pools, a)[y].subPrev == pools[y].subPrev
  {
  }

  /** The neighbours of a have the same parent. */
  lemma Siblings(v: View, a: int, k: nat)
    requires SameKeys(v) && 0 !in v.pools && a in v.pools && KidsAt(v, a) && ParentAt(v, a)
    requires var q := v.pools[a].parent; q != 0 ==> q in v.pools && k < |v.kids[q]| && v.kids[q][k] == a && KidsAt(v, q)
    ensures var q, prev, next := v.pools[a].parent, v.pools[a].subPrev, v.pools[a].subNext;
      && (prev != 0 ==> prev in v.pools && v.pools[prev].parent == q)
        && (next != 0 ==> next in v.pools && v.pools[next].parent == q)
  {
    var q := v.pools[a].parent;
    if q != 0 {
      assert LinkAt(v.pools, q, v.kids[q], k);
      if k > 0 { assert LinkAt(v.pools, q, v.kids[q], k - 1); }
      if k + 1 < |v.kids[q]| { assert LinkAt(v.pools, q, v.kids[q], k + 1); }
    }
  }

  lemma RemovedParent(v: View, v': View, a: int, k: nat, x: int)
    requires Removed(v, v', a, k) && SameKeys(v) && 0 !in v.pools && x in v'.pools && x in v.pools
    requires forall y :: y in v.pools ==> KidsAt(v, y) && ParentAt(v, y)
    ensures x in v'.path && ParentAt(v', x)
  {
    hide Chain;
    assert ParentAt(v, x) && ParentAt(v, a);
    var q, y := v.pools[a].parent, v.pools[x].parent;
    UnhungKeeps(v.pools, a, x);
    if y == 0 {
      if q != 0 {
        assert KidsAt(v, q) && LinkAt(v.pools, q, v.kids[q], k);
        if k > 0 { assert LinkAt(v.pools, q, v.kids[q], k - 1); }
        if k + 1 < |v.kids[q]| { assert LinkAt(v.pools, q, v.kids[q], k + 1); }
      }
    } else {
      assert y != a;
      if y == q {
        var i :| 0 <= i < |v.kids[q]| && v.kids[q][i] == x;
        assert Without(v.kids[q], k)[if i < k then i else i - 1] == x;
      }
    }
  }

  lemma RemovedRest(v: View, v': View, a: int, k: nat)
    requires Removed(v, v', a, k) && Apart(v.hdr) && Owned(v) && FreeOk(v) && SameKeys(v) && RegionsOk(v)
      && BlocksAt(v, a)
    ensures Apart(v'.hdr) && FreeOk(v') && SameKeys(v') && RegionsOk(v')
  {
    hide Chain, KidsAt, ParentAt;
    var first := v.chains[a][0];
    assert first in v.chains[a];
    UnhungKeeps(v.pools, a, a);
    forall r | r in v'.regions ensures RegionAt(v', r) { assert RegionAt(v, r); }
  }

  lemma RemovedOk(v: View, v': View, a: int, k: nat)
    requires Ok(v) && Removed(v, v', a, k)
    ensures Ok(v')
  {
    hide Chain, KidsAt, ParentAt, BlocksAt, Apart, FreeOk, RegionsOk, Unhung;
    assert BlocksAt(v, a) && 0 !in v.pools;
    UnhungKeeps(v.pools, a, a);
    RemovedOwned(v, v', a, k);
    RemovedRest(v, v', a, k);
    forall x | x in v'.chains ensures BlocksAt(v', x) { RemovedBlocks(v, v', a, k, x); }
    forall x | x in v'.pools ensures KidsAt(v', x) && ParentAt(v', x) {
      RemovedKids(v, v', a, k, x);
      RemovedParent(v, v', a, k, x);
    }
  }

  // ----- what lies below a pool -----

  /** p descends from a. */
  ghost predicate Below(v: View, a: int, p: int) {
    a in v.path && p in v.path && v.path[a] < v.path[p]
  }

  lemma TreePath(v: View, p: int)
    requires Ok(v) && p in v.pools
    ensures p in v.path && v.path[p] != [] && Last(v.path[p]) == p
    ensures var q := v.pools[p].parent;
            if q == 0 then v.path[p] == [p]
            else q in v.pools && q in v.kids && q in v.path && p in v.kids[q] && v.path[p] == v.path[q] + [p]
  {
    hide Apart, Owned, FreeOk, RegionsOk, BlocksAt, KidsAt;
    assert ParentAt(v, p);
  }

  lemma {:induction false} NoneBelow(v: View, a: int, p: int)
    requires Ok(v) && a in v.pools && p in v.pools && a in v.kids && v.kids[a] == []
    ensures !Below(v, a, p)
    decreases if p in v.path then |v.path[p]| else 0
  {
    hide Ok;
    TreePath(v, a);
    TreePath(v, p);
    if Below(v, a, p) {
      var y := v.pools[p].parent;
      if y != 0 {
        assert v.path[a] <= v.path[y];
        if v.path[y] == v.path[a] {
          TreePath(v, y);
        } else {
          NoneBelow(v, a, y);
        }
      }
    }
  }

  /** What is left of v once all below a, or some of it, has been destroyed. */
  ghost predicate Pruned(v: View, v': View, a: int) {
    && a in v.pools && a in v'.pools && a in v.path && a in v'.path && a in v.chains && a in v'.chains
    && (forall p :: p in v.pools && !Below(v, a, p) ==> p in v'.pools)
    && v'.hdr.Keys == v.hdr.Keys
    && (forall b :: b in v.hdr ==> v'.hdr[b].endp == v.hdr[b].endp)
    && (forall b :: b in v'.owner && v'.owner[b] != 0 ==> SameOwner(v, v', b) && v'.hdr[b].avail == v.hdr[b].avail)
    && v'.regions == (set r | r in v.regions && r.pool in v'.pools)
    && forall p :: p in v'.pools ==> p in v.pools && PrunedAt(v, v', a, p)
  }

  ghost predicate PrunedAt(v: View, v': View, a: int, p: int) {
    && p in v.path && p in v'.path && v'.path[p] == v.path[p]
    && p in v.chains && p in v'.chains && v'.chains[p] == v.chains[p]
    && p in v.kids && p in v'.kids && (p != a ==> v'.kids[p] == v.kids[p])
  }

  ghost predicate SameOwner(v: View, v': View, b: int) {
    b in v.owner && b in v'.owner && v'.owner[b] == v.owner[b] && b in v.hdr && b in v'.hdr
  }

  ghost predicate ClearedAt(v: View, v': View, a: int, p: int) {
    && p in v.path && p in v'.path && v'.path[p] == v.path[p]
    && (p != a ==>
      && p in v.chains && p in v'.chains && v'.chains[p] == v.chains[p] && p in v.kids && p in v'.kids
      && v'.kids[p] == v.kids[p])
  }

  /** What GOOMBAServer_clear_pool does: all below a is gone, and a is as new. */
  ghost predicate AfterClear(v: View, v': View, a: int) {
    && a in v.pools && a in v.chains && v.chains[a] != [] && a in v'.chains && a in v'.kids
    && (forall p :: p in v'.pools <==> p in v.pools && !Below(v, a, p))
    && v'.chains[a] == [v.chains[a][0]] && v'.kids[a] == []
    && v.chains[a][0] in v'.hdr && v'.hdr[v.chains[a][0]].avail == a + POOL_HDR
    && v'.hdr.Keys == v.hdr.Keys
    && (forall b :: b in v.hdr ==> v'.hdr[b].endp == v.hdr[b].endp)
    && (forall b :: b in v'.owner && v'.owner[b] != 0 ==>
      SameOwner(v, v', b) && (b != v.chains[a][0] ==> v'.hdr[b].avail == v.hdr[b].avail))
    && v'.regions == (set r | r in v.regions && r.pool in v'.pools && r.pool != a)
    && forall p :: p in v'.pools ==> ClearedAt(v, v', a, p)
  }

  /** s without the element x. */
  function Drop(s: seq<int>, x: int): seq<int> {
    if s == [] then [] else if s[0] == x then Drop(s[1..], x) else [s[0]] + Drop(s[1..], x)
  }

  lemma {:induction false} DropNone(s: seq<int>, x: int)
    requires x !in s
    ensures Drop(s, x) == s
  {
    if s != [] { DropNone(s[1..], x); }
  }

  lemma {:induction false} WithoutDrops(s: seq<int>, k: nat)
    requires NoDup(s) && k < |s|
    ensures Without(s, k) == Drop(s, s[k])
    decreases k
  {
    var rest := s[1..];
    assert NoDup(rest) by {
      forall i, j | 0 <= i < j < |rest| ensures rest[i] != rest[j] { assert s[i + 1] != s[j + 1]; }
    }
    if k == 0 {
      DropNone(rest, s[0]);
      assert Without(s, 0) == rest;
    } else {
      WithoutDrops(rest, k - 1);
      assert s[0] != s[k];
      assert Without(s, k) == [s[0]] + Without(rest, k - 1);
    }
  }

  /** What GOOMBAServer_destroy_pool does: a and all below it is gone. */
  ghost predicate AfterDestroy(v: View, v': View, a: int) {
    && a in v.pools && a in v.path
    && (forall p :: p in v'.pools <==> p in v.pools && p != a && !Below(v, a, p))
    && v'.hdr.Keys == v.hdr.Keys
    && (forall b :: b in v.hdr ==> v'.hdr[b].endp == v.hdr[b].endp)
    && (forall b :: b in v'.owner && v'.owner[b] != 0 ==> SameOwner(v, v', b) && v'.hdr[b].avail == v.hdr[b].avail)
    && v'.regions == (set r | r in v.regions && r.pool in v'.pools)
    && forall p :: p in v'.pools ==> DestroyedAt(v, v', a, p)
  }

  ghost predicate DestroyedAt(v: View, v': View, a: int, p: int)
    requires a in v.pools
  {
    && p in v.path && p in v'.path && v'.path[p] == v.path[p]
    && p in v.chains && p in v'.chains && v'.chains[p] == v.chains[p]
    && p in v.kids && p in v'.kids && v'.kids[p] == if p == v.pools[a].parent then Drop(v.kids[p], a) else v.kids[p]
  }

  // ----- the allocator -----

  class Allocator {
    const blocks: BlockStore
    var pools: map<int, Pool>
    ghost var chains: map<int, seq<int>>
    ghost var kids: map<int, seq<int>>
    ghost var path: map<int, seq<int>>
    ghost var owner: map<int, int>
    ghost var regions: set<Region>
    ghost var depth: nat

    ghost function V(): View
      reads this, blocks
    {
      View(blocks.hdr, blocks.freelist, blocks.free, pools, chains, kids, path, owner, regions)
    }

    /** Every block that came from the system is in the free list or in the chain of one live pool,
        chains end, the tree's links agree, and allocations do not overlap. */
    ghost predicate Valid()
      reads this, blocks
    {
      Ok(V()) && forall p :: p in path ==> |path[p]| <= depth
    }

    constructor ()
      ensures Valid() && V() == View(map[], 0, [], map[], map[], map[], map[], map[], {}) && fresh(blocks)
    {
      blocks := new BlockStore();
      pools, chains, kids, path, owner, regions, depth := map[], map[], map[], map[], map[], {}, 0;
    }

    /** A block is got, and is in no list for the moment. */
    method Detach(minSize: int, mem: int) returns (b: int)
      requires Valid() && minSize >= 0 && Unused(blocks.hdr, mem, minSize + MINFREE)
      modifies blocks
      ensures Detached(old(V()), blocks.hdr, blocks.freelist, blocks.free, b, minSize + MINFREE)
    {
      hide *;
      ViewIs();
      ghost var v := V();
      MeansOk(v);
      StoreOk(v, blocks);
      blocks.FreeParts();
      b := blocks.NewBlock(minSize, mem);
      blocks.FreeParts();
      OneTaken(v.free, FirstFit(v.hdr, v.free, minSize + MINFREE), blocks.free, v.hdr, v.freelist);
      DetachedIntro(v, blocks.hdr, blocks.freelist, blocks.free, b, minSize + MINFREE,
        FirstFit(v.hdr, v.free, minSize + MINFREE));
    }

    /** GOOMBAServer_make_sub_pool under q, or a top-level pool if q is 0.  mem is what malloc answers
        should it be asked. */
    method MakeSubPool(q: int, mem: int) returns (p: int)
      requires Valid() && (q == 0 || q in pools) && Unused(blocks.hdr, mem, MINFREE)
      modifies this, blocks
      ensures Valid() && Made(old(V()), V(), p, p - HDR, q)
    {
      hide *;
      ViewIs();
      ghost var v := V();
      SubIs(v, q);
      var b := Detach(0, mem);
      ViewIs();
      ghost var hdr := blocks.hdr;
      NewPool(v, hdr, blocks.freelist, blocks.free, b, MINFREE);
      p := blocks.hdr[b].avail;
      blocks.hdr := blocks.hdr[b := blocks.hdr[b].(avail := p + POOL_HDR)];
      var sub := if q == 0 then 0 else pools[q].sub;
      pools := pools[p := Pool(b, b, 0, 0, 0, 0, p + POOL_HDR)];
      if q != 0 {
        pools := pools[p := pools[p].(parent := q, subNext := pools[q].sub)];
        if sub != 0 {
          pools := pools[sub := pools[sub].(subPrev := p)];
        }
        pools := pools[q := pools[q].(sub := p)];
        kids := kids[q := [p] + kids[q]];
      }
      HungIs(v.pools, p, q, sub, pools, b);
      path := path[p := if q == 0 then [p] else path[q] + [p]];
      kids := kids[p := []];
      chains := chains[p := [b]];
      owner := owner[b := p];
      depth := depth + 1;
      ViewIs();
      MadeFrom(v, hdr, blocks.freelist, blocks.free, b, q, V());
      ViewIs();
      PathsGrow(v.path, path, p, q, depth - 1);
    }

    /** GOOMBAServer_palloc: the memory handed out lies in a block of a, apart from all that has been
        handed out before. */
    method Palloc(a: int, req: nat, mem: int) returns (r: int)
      requires Valid() && a in pools && Unused(blocks.hdr, mem, SizeOf(req) + MINFREE)
      modifies this, blocks
      ensures Valid()
      ensures if Fits(old(V()), a, SizeOf(req))
              then r == old(V()).hdr[old(V()).pools[a].last].avail && Fitted(old(V()), V(), a, SizeOf(req))
              else Grown(old(V()), V(), a, r - HDR, SizeOf(req))
    {
      hide *;
      var size := SizeOf(req);
      ViewIs();
      ghost var v := V();
      LastBlock(v, a);
      SizePositive(req);
      var blok := pools[a].last;
      r := blocks.hdr[blok].avail;
      FitsIs(v, a, size);
      if r + size <= blocks.hdr[blok].endp {
        blocks.hdr := blocks.hdr[blok := blocks.hdr[blok].(avail := r + size)];
        regions := regions + {Region(a, blok, r, size)};
        ViewIs();
        FittedFrom(v, V(), a, size);
        return;
      }
      var b := Detach(size, mem);
      ViewIs();
      ghost var hdr := blocks.hdr;
      DetachedParts(v, hdr, blocks.freelist, blocks.free, b, size + MINFREE, a);
      blocks.hdr := blocks.hdr[blok := blocks.hdr[blok].(next := b)];
      pools := pools[a := pools[a].(last := b)];
      r := blocks.hdr[b].avail;
      blocks.hdr := blocks.hdr[b := blocks.hdr[b].(avail := r + size)];
      chains := chains[a := chains[a] + [b]];
      owner := owner[b := a];
      regions := regions + {Region(a, b, b + HDR, size)};
      ViewIs();
      GrownFrom(v, hdr, blocks.freelist, blocks.free, b, a, size, V());
    }

    /** The rest of GOOMBAServer_clear_pool, once a has no sub-pools. */
    method GiveBack(a: int)
      requires Valid() && a in pools && pools[a].sub == 0
      modifies this, blocks
      ensures Valid() && depth == old(depth) && Cleared(old(V()), V(), a)
    {
      hide *;
      ViewIs();
      ghost var w := V();
      ghost var rest := ClearReady(w, a, blocks);
      pools := pools[a := pools[a].(sub := 0)];
      var first := pools[a].first;
      blocks.FreeBlocks(blocks.hdr[first].next, rest);
      ghost var hdr := blocks.hdr;
      StoreOk(w.(hdr := hdr, freelist := blocks.freelist, free := blocks.free), blocks);
      blocks.hdr := blocks.hdr[first := blocks.hdr[first].(next := 0)];
      pools := pools[a := pools[a].(last := first)];
      blocks.hdr := blocks.hdr[first := blocks.hdr[first].(avail := pools[a].freeAvail)];
      chains := chains[a := [first]];
      owner := map b | b in owner :: if b in rest then 0 else owner[b];
      regions := set r | r in regions && r.pool != a;
      ViewIs();
      ClearedFrom(w, hdr, V(), a, rest);
      ViewIs();
      PathsKept(w.path, path, depth);
    }

    /** GOOMBAServer_clear_pool: all sub-pools are destroyed, and all blocks but the first given back. */
    method ClearPool(a: int)
      requires Valid() && a in pools
      modifies this, blocks
      ensures Valid() && depth == old(depth) && AfterClear(old(V()), V(), a)
      decreases depth - Level(path, a), 0
    {
      hide *;
      ViewIs();
      ghost var v := V();
      PrunedStart(v, a);
      while pools[a].sub != 0
        modifies this, blocks
        invariant Valid() && depth == old(depth) && Pruned(v, V(), a) && a in pools && a in kids
        decreases |kids[a]|
      {
        ViewIs();
        ghost var w := V();
        var sub := pools[a].sub;
        FirstKid(v, w, a, depth);
        DestroyPool(sub);
        ViewIs();
        PrunedMore(v, w, V(), a, sub);
      }
      ViewIs();
      ghost var w := V();
      GiveBack(a);
      ClearedAfter(v, w, V(), a);
    }

    /** The pool a is taken off its siblings and its parent. */
    method Unhang(a: int)
      requires a in pools && 0 !in pools
      requires pools[a].parent != 0 ==> pools[a].parent in pools && pools[a].parent != a
      requires pools[a].subPrev != 0 ==> pools[a].subPrev in pools && pools[a].subPrev != a
      requires pools[a].subNext != 0 ==> pools[a].subNext in pools && pools[a].subNext != a
      modifies `pools
      ensures pools == Unhung(old(pools), a) && a in pools && pools[a].first == old(pools)[a].first
    {
      hide *;
      var q := pools[a].parent;
      if q != 0 {
        if pools[q].sub == a {
          pools := pools[q := pools[q].(sub := pools[a].subNext)];
        }
        if pools[a].subPrev != 0 {
          pools := pools[pools[a].subPrev := pools[pools[a].subPrev].(subNext := pools[a].subNext)];
        }
        if pools[a].subNext != 0 {
          pools := pools[pools[a].subNext := pools[pools[a].subNext].(subPrev := pools[a].subPrev)];
        }
      }
      UnhungIs(old(pools), a, q, pools);
    }

    /** GOOMBAServer_destroy_pool: the pool is cleared, taken off its siblings and its parent, and its
        first block is given back. */
    method DestroyPool(a: int)
      requires Valid() && a in pools
      modifies this, blocks
      ensures Valid() && depth == old(depth) && AfterDestroy(old(V()), V(), a)
      decreases depth - Level(path, a), 1
    {
      hide *;
      ViewIs();
      ghost var v := V();
      ClearPool(a);
      ViewIs();
      ghost var w := V();
      IsCleared(v, w, a);
      ghost var k := DestroyReady(w, a, blocks);
      ghost var q := pools[a].parent;
      Unhang(a);
      if q != 0 {
        kids := kids[q := Without(kids[q], k)];
      }
      var first := pools[a].first;
      blocks.FreeBlocks(first, [first]);
      pools := pools - {a};
      chains, kids, path := chains - {a}, kids - {a}, path - {a};
      owner := owner[first := 0];
      ViewIs();
      StoreOk(V(), blocks);
      RemovedFrom(w, V(), a, k);
      RemovedAfter(v, w, V(), a, k);
      PathsKept(w.path, path, depth);
    }

    lemma ViewIs()
      ensures V() == View(blocks.hdr, blocks.freelist, blocks.free, pools, chains, kids, path, owner, regions)
      ensures Valid() <==> Ok(V()) && forall p :: p in path ==> |path[p]| <= depth
    {
      hide Ok;
    }
  }

  // ----- the steps of clearing and destroying -----

  function Level(path: map<int, seq<int>>, a: int): (n: nat)
    ensures a in path ==> n == |path[a]|
  {
    if a in path then |path[a]| else 0
  }

  lemma PathsKept(path: map<int, seq<int>>, path': map<int, seq<int>>, depth: nat)
    requires (forall p :: p in path ==> |path[p]| <= depth) && forall p :: p in path' ==>
      p in path && path'[p] == path[p]
    ensures forall p :: p in path' ==> |path'[p]| <= depth
  {
  }

  lemma PrunedStart(v: View, a: int)
    requires Ok(v) && a in v.pools
    ensures Pruned(v, v, a) && a in v.kids
  {
    hide Chain, Apart, FreeOk, BlocksAt, KidsAt, ParentAt, Below;
    forall r | r in v.regions ensures r.pool in v.pools { assert RegionAt(v, r); }
    assert v.regions == set r | r in v.regions && r.pool in v.pools;
  }

  /** The first sub-pool of a. */
  lemma FirstKid(v: View, w: View, a: int, depth: nat)
    requires Ok(w) && a in w.pools && a in w.kids && Pruned(v, w, a) && w.pools[a].sub != 0
    requires forall p :: p in w.path ==> |w.path[p]| <= depth
    ensures var sub := w.pools[a].sub;
      && sub in w.pools && sub in w.kids[a] && w.pools[sub].parent == a && sub != a
      && 0 <= depth - Level(w.path, sub) < depth - Level(v.path, a)
  {
    hide Chain, Apart, FreeOk, BlocksAt, RegionsOk, Owned, Below, SameOwner;
    NoNull(w);
    assert KidsAt(w, a) && LinkAt(w.pools, a, w.kids[a], 0);
    assert ParentAt(w, w.pools[a].sub) && PrunedAt(v, w, a, a) && ParentAt(w, a);
  }

  lemma Prefixes(s: seq<int>, t: seq<int>, u: seq<int>)
    requires s < t && (t < u || t == u)
    ensures s < u
  {
  }

  lemma PrunedMore(v: View, w: View, w': View, a: int, sub: int)
    requires Ok(w) && Pruned(v, w, a) && AfterDestroy(w, w', sub)
    requires a in w.kids && sub in w.pools && sub in w.kids[a] && w.pools[sub].parent == a && sub != a
    ensures Pruned(v, w', a) && a in w'.pools && a in w'.kids && |w'.kids[a]| < |w.kids[a]|
  {
    hide Ok, Drop;
    NoNull(w);
    TreePath(w, sub);
    assert w.path[sub] == w.path[a] + [sub];
    assert PrunedAt(v, w, a, a) && PrunedAt(v, w, a, sub);
    assert a in w'.pools && DestroyedAt(w, w', sub, a);
    assert Below(v, a, sub);
    DropShorter(w.kids[a], sub);
    forall p | p in v.pools && !Below(v, a, p) ensures p in w'.pools {
      assert p in w.pools && PrunedAt(v, w, a, p);
      if Below(w, sub, p) { Prefixes(w.path[a], w.path[sub], w.path[p]); }
    }
    forall p | p in w'.pools ensures p in v.pools && PrunedAt(v, w', a, p) {
      assert PrunedAt(v, w, a, p) && DestroyedAt(w, w', sub, p);
    }
    assert w'.regions == set r | r in v.regions && r.pool in w'.pools;
    forall b | b in w'.owner && w'.owner[b] != 0 ensures SameOwner(v, w', b) && w'.hdr[b].avail == v.hdr[b].avail {
      assert SameOwner(w, w', b) && SameOwner(v, w, b);
    }
  }

  lemma {:induction false} DropShorter(s: seq<int>, x: int)
    ensures |Drop(s, x)| <= |s| && (x in s ==> |Drop(s, x)| < |s|)
  {
    if s != [] { DropShorter(s[1..], x); }
  }

  lemma SubOf(w: View, a: int)
    requires a in w.pools && a in w.kids && KidsAt(w, a)
    ensures w.pools[a].sub == 0 <==> w.kids[a] == []
  {
    if w.kids[a] != [] { assert LinkAt(w.pools, a, w.kids[a], 0); }
  }

  lemma ClearReady(w: View, a: int, store: BlockStore) returns (rest: seq<int>)
    requires Ok(w) && a in w.pools && w.pools[a].sub == 0
    requires w.hdr == store.hdr && w.freelist == store.freelist && w.free == store.free
    ensures a in w.chains && a in w.kids && w.chains[a] != [] && w.kids[a] == [] && rest == w.chains[a][1..]
    ensures w.pools[a].first == w.chains[a][0] && w.chains[a][0] in w.hdr && w.chains[a][0] !in rest
      && w.chains[a][0] !in w.free
    ensures store.FreeOk() && Chain(store.hdr, store.hdr[w.chains[a][0]].next, rest) && forall b :: b in rest ==>
      b !in w.free
  {
    hide Apart, RegionsOk, KidsAt, ParentAt;
    assert BlocksAt(w, a);
    SubOf(w, a);
    rest := w.chains[a][1..];
    StoreOk(w, store);
    hide FreeOk;
    assert w.chains[a][0] in w.chains[a];
    forall b | b in rest ensures b !in w.free { assert b in w.chains[a]; assert w.owner[b] == a; }
  }

  lemma ClearedFrom(w: View, hdr: Memory, v': View, a: int, rest: seq<int>)
    requires Ok(w) && a in w.pools && a in w.chains && a in w.kids && w.chains[a] != [] && w.kids[a] == []
      && rest == w.chains[a][1..]
    requires w.pools[a].first == w.chains[a][0] && w.chains[a][0] in w.hdr && w.chains[a][0] !in rest
      && w.chains[a][0] !in w.free
    requires hdr.Keys == w.hdr.Keys && FreeOk(w.(hdr := hdr, freelist := v'.freelist, free := v'.free))
    requires forall b :: b in w.hdr && b !in rest ==> hdr[b] == w.hdr[b]
    requires forall b :: b in w.hdr && b in rest ==> hdr[b].endp == w.hdr[b].endp && hdr[b].avail == b + HDR
    requires var first := w.chains[a][0];
      && v'.hdr == (var one := hdr[first := hdr[first].(next := 0)];
        one[first := one[first].(avail := w.pools[a].freeAvail)])
      && v'.free == rest + w.free && v'.kids == w.kids && v'.path == w.path && v'.chains == w.chains[a := [first]]
      && v'.pools == (var one := w.pools[a := w.pools[a].(sub := 0)]; one[a := one[a].(last := first)])
      && v'.owner == (map b | b in w.owner :: if b in rest then 0 else w.owner[b])
      && v'.regions == (set r | r in w.regions && r.pool != a)
    ensures Cleared(w, v', a) && Ok(v')
  {
    hide Ok, Apart, RegionsOk, Chain;
    var first := w.chains[a][0];
    assert first !in v'.free;
    ChainKept(hdr, v'.hdr, v'.freelist, v'.free);
    ClearedOk(w, v', a);
  }

  lemma FirstFree(w: View, a: int)
    requires Ok(w) && a in w.pools
    ensures w.pools[a].freeAvail == a + POOL_HDR
  {
    hide Apart, RegionsOk, KidsAt, ParentAt, Chain, Owned, FreeOk;
    assert BlocksAt(w, a);
  }

  lemma ClearedAfter(v: View, w: View, v': View, a: int)
    requires Ok(w) && Pruned(v, w, a) && Cleared(w, v', a)
    ensures AfterClear(v, v', a)
  {
    hide Ok, Chain;
    assert PrunedAt(v, w, a, a);
    FirstFree(w, a);
    forall p | p in w.pools ensures !Below(v, a, p) {
      assert PrunedAt(v, w, a, p);
      NoneBelow(w, a, p);
    }
    forall p | p in v'.pools ensures ClearedAt(v, v', a, p) { assert PrunedAt(v, w, a, p); }
    assert v'.regions == set r | r in v.regions && r.pool in v'.pools && r.pool != a;
    forall b | b in v'.owner && v'.owner[b] != 0
      ensures SameOwner(v, v', b) && (b != v.chains[a][0] ==> v'.hdr[b].avail == v.hdr[b].avail)
    {
      assert SameOwner(v, w, b);
    }
  }

  lemma IsCleared(v: View, w: View, a: int)
    requires Ok(v) && AfterClear(v, w, a)
    ensures a in w.pools && a in w.chains && a in w.kids && w.kids[a] == [] && |w.chains[a]| == 1
    ensures a in v.path && forall r :: r in w.regions ==> r.pool != a
  {
    hide Ok, Below;
    NotBelowItself(v, a);
    TreePath(v, a);
  }

  lemma DestroyReady(w: View, a: int, store: BlockStore) returns (k: nat)
    requires Ok(w) && a in w.pools && a in w.chains && |w.chains[a]| == 1
    requires w.hdr == store.hdr && w.freelist == store.freelist && w.free == store.free
    ensures 0 !in w.pools && w.pools[a].first == w.chains[a][0] && w.chains[a][0] in w.hdr && w.chains[a][0] !in w.free
    ensures store.FreeOk() && Chain(store.hdr, w.chains[a][0], [w.chains[a][0]])
    ensures var q := w.pools[a].parent;
      if q == 0 then w.pools[a].subPrev == 0 && w.pools[a].subNext == 0
      else
        && q in w.pools && q in w.kids && q != a && k < |w.kids[q]| && w.kids[q][k] == a
        && (w.pools[a].subPrev != 0 ==> w.pools[a].subPrev in w.pools && w.pools[a].subPrev != a)
        && (w.pools[a].subNext != 0 ==> w.pools[a].subNext in w.pools && w.pools[a].subNext != a)
  {
    hide Apart, RegionsOk, KidsAt, ParentAt, Chain;
    assert BlocksAt(w, a);
    assert w.chains[a][0] in w.chains[a];
    assert w.chains[a] == [w.chains[a][0]];
    k := PlaceOf(w, a);
  }

  /** The place of a among its parent's sub-pools. */
  lemma PlaceOf(w: View, a: int) returns (k: nat)
    requires Ok(w) && a in w.pools
    ensures var q := w.pools[a].parent;
      if q == 0 then w.pools[a].subPrev == 0 && w.pools[a].subNext == 0
      else
        && q in w.pools && q in w.kids && q != a && k < |w.kids[q]| && w.kids[q][k] == a
        && (w.pools[a].subPrev != 0 ==> w.pools[a].subPrev in w.pools && w.pools[a].subPrev != a)
        && (w.pools[a].subNext != 0 ==> w.pools[a].subNext in w.pools && w.pools[a].subNext != a)
  {
    hide Apart, RegionsOk, BlocksAt, FreeOk, Owned;
    k := 0;
    assert ParentAt(w, a);
    var q := w.pools[a].parent;
    if q != 0 {
      k :| 0 <= k < |w.kids[q]| && w.kids[q][k] == a;
      assert KidsAt(w, q) && LinkAt(w.pools, q, w.kids[q], k);
      if k > 0 { assert LinkAt(w.pools, q, w.kids[q], k - 1); }
      if k + 1 < |w.kids[q]| { assert LinkAt(w.pools, q, w.kids[q], k + 1); }
    }
  }

  lemma NotBelowItself(v: View, a: int)
    ensures !Below(v, a, a)
  {
  }

  lemma UnhungIs(pools: map<int, Pool>, a: int, q: int, pools': map<int, Pool>)
    requires a in pools && q == pools[a].parent && 0 !in pools
    requires q != 0 ==> q in pools && q != a
    requires pools[a].subPrev != 0 ==> pools[a].subPrev in pools && pools[a].subPrev != a
    requires pools[a].subNext != 0 ==> pools[a].subNext in pools && pools[a].subNext != a
    requires pools' == if q == 0 then pools else
      var one := if pools[q].sub == a then pools[q := pools[q].(sub := pools[a].subNext)] else pools;
      var two := if one[a].subPrev != 0 then one[one[a].subPrev := one[one[a].subPrev].(subNext := one[a].subNext)]
        else one;
      if two[a].subNext != 0 then two[two[a].subNext := two[two[a].subNext].(subPrev := two[a].subPrev)] else two
    ensures pools' == Unhung(pools, a) && a in pools' && pools'[a].first == pools[a].first
  {
  }

  lemma RemovedFrom(w: View, v': View, a: int, k: nat)
    requires Ok(w) && a in w.pools && a in w.chains && a in w.kids && w.kids[a] == [] && |w.chains[a]| == 1
    requires w.chains[a][0] in w.hdr && w.chains[a][0] !in w.free
    requires var q := w.pools[a].parent; q != 0 ==> q in w.pools && q in w.kids && k < |w.kids[q]| && w.kids[q][k] == a
    requires v'.hdr.Keys == w.hdr.Keys && FreeOk(v')
    requires var first, q := w.chains[a][0], w.pools[a].parent;
      && (forall b :: b in w.hdr && b !in [first] ==> v'.hdr[b] == w.hdr[b])
      && (forall b :: b in w.hdr && b in [first] ==> v'.hdr[b].endp == w.hdr[b].endp && v'.hdr[b].avail == b + HDR)
      && v'.free == [first] + w.free && v'.chains == w.chains - {a} && v'.path == w.path - {a}
        && v'.pools == Unhung(w.pools, a) - {a}
      && v'.kids == (if q == 0 then w.kids else w.kids[q := Without(w.kids[q], k)]) - {a}
      && v'.owner == w.owner[first := 0] && v'.regions == w.regions
    requires forall r :: r in w.regions ==> r.pool != a
    ensures Removed(w, v', a, k) && Ok(v')
  {
    hide Ok, Apart, RegionsOk, Chain, Unhung;
    assert w.chains[a][0] in [w.chains[a][0]];
    NoNull(w);
    RemovedOk(w, v', a, k);
  }

  lemma NoNull(w: View)
    requires Ok(w)
    ensures 0 !in w.pools && 0 !in w.kids
  {
    hide Apart, FreeOk, RegionsOk, BlocksAt, KidsAt, ParentAt;
  }

  lemma ParentByPath(v: View, w: View, a: int)
    requires Ok(v) && Ok(w) && a in v.pools && a in w.pools && a in v.path && a in w.path && v.path[a] == w.path[a]
    ensures v.pools[a].parent == w.pools[a].parent
  {
    hide Ok;
    TreePath(v, a);
    TreePath(w, a);
    if v.pools[a].parent != 0 { TreePath(v, v.pools[a].parent); }
    if w.pools[a].parent != 0 { TreePath(w, w.pools[a].parent); }
    var s := v.path[a];
    assert v.pools[a].parent == if |s| == 1 then 0 else s[|s| - 2];
    assert w.pools[a].parent == if |s| == 1 then 0 else s[|s| - 2];
  }

  lemma RemovedAfter(v: View, w: View, v': View, a: int, k: nat)
    requires Ok(v) && Ok(w) && AfterClear(v, w, a) && Removed(w, v', a, k) && a in v.path
    ensures AfterDestroy(v, v', a)
  {
    hide Ok, Chain, Unhung, Drop;
    assert a in w.pools by { NotBelowItself(v, a); }
    assert ClearedAt(v, w, a, a);
    ParentByPath(v, w, a);
    NoNull(w);
    UnhungKeeps(w.pools, a, a);
    assert v'.regions == set r | r in v.regions && r.pool in v'.pools;
    forall b | b in v'.owner && v'.owner[b] != 0 ensures SameOwner(v, v', b) && v'.hdr[b].avail == v.hdr[b].avail {
      assert SameOwner(v, w, b);
    }
    var q := w.pools[a].parent;
    forall p | p in v'.pools ensures DestroyedAt(v, v', a, p) {
      assert ClearedAt(v, w, a, p);
      TreePath(w, p);
      if p == q { KidsOnce(w, q); WithoutDrops(w.kids[q], k); }
    }
  }

  lemma KidsOnce(w: View, q: int)
    requires Ok(w) && q in w.pools && q in w.kids
    ensures NoDup(w.kids[q])
  {
    hide Apart, FreeOk, RegionsOk, BlocksAt, Owned, ParentAt;
    assert KidsAt(w, q);
  }

  lemma MeansOk(v: View)
    ensures Ok(v) <==>
      && Apart(v.hdr) && Owned(v) && FreeOk(v) && SameKeys(v) && RegionsOk(v)
      && (forall p :: p in v.chains ==> BlocksAt(v, p))
      && (forall p :: p in v.pools ==> p in v.kids && p in v.path && KidsAt(v, p) && ParentAt(v, p))
    ensures Owned(v) && Ok(v) ==> forall c :: c in v.free ==> c in v.hdr
  {
    hide Apart, FreeOk, RegionsOk, BlocksAt, KidsAt, ParentAt;
  }

  lemma StoreOk(v: View, store: BlockStore)
    requires v.hdr == store.hdr && v.freelist == store.freelist && v.free == store.free
    ensures FreeOk(v) <==> store.FreeOk()
  {
    hide Chain;
  }

  /** Taking one block from the free list leaves the others. */
  lemma OneTaken(free: seq<int>, k: nat, free': seq<int>, hdr: Memory, freelist: int)
    requires Chain(hdr, freelist, free)
    requires k < |free| ==> free' == free[..k] + free[k + 1..]
    ensures k < |free| ==> forall c :: c in free' <==> c in free && c != free[k]
  {
    if k < |free| {
      forall i: nat | i < |free| && i != k ensures free[i] != free[k] {
        if i < k { SegDistinct(hdr, freelist, free, 0, i, k); } else { SegDistinct(hdr, freelist, free, 0, k, i); }
      }
    }
  }

  /** The first sub-pool of q is a pool. */
  lemma SubIs(v: View, q: int)
    requires Ok(v) && (q == 0 || q in v.pools)
    ensures 0 !in v.pools && (q != 0 ==>
      q in v.kids && q in v.path && (v.pools[q].sub == 0 || v.pools[q].sub in v.pools))
    ensures forall x :: x in v.pools ==>
      x in v.chains && v.chains[x] != [] && x == v.chains[x][0] + HDR && v.chains[x][0] in v.owner
      && v.owner[v.chains[x][0]] == x
  {
    hide Apart, FreeOk, RegionsOk, Chain, ParentAt;
    if q != 0 {
      assert KidsAt(v, q);
      if v.kids[q] != [] { assert LinkAt(v.pools, q, v.kids[q], 0); }
    }
    forall x | x in v.pools ensures x in v.chains && v.chains[x] != [] && x == v.chains[x][0] + HDR
      && v.chains[x][0] in v.owner && v.owner[v.chains[x][0]] == x {
      assert BlocksAt(v, x);
      assert v.chains[x][0] in v.chains[x];
    }
  }

  /** b has been taken from the free list of v, or is new; nothing else has changed. */
  ghost predicate Detached(v: View, hdr: Memory, freelist: int, free: seq<int>, b: int, need: int) {
    && Chain(hdr, freelist, free) && (forall c :: c in free ==> c in hdr && hdr[c].avail == c + HDR) && Apart(hdr)
    && b in hdr && b !in free && hdr[b].next == 0 && hdr[b].avail == b + HDR && hdr[b].endp - hdr[b].avail >= need
    && (b in v.hdr ==> b in v.free) && hdr.Keys == v.hdr.Keys + {b}
      && (forall c :: c in free <==> c in v.free && c != b)
    && (forall c :: c in v.hdr ==> hdr[c].endp == v.hdr[c].endp && hdr[c].avail == v.hdr[c].avail)
    && forall c :: c in v.hdr && c !in v.free ==> hdr[c] == v.hdr[c]
  }

  lemma DetachedIntro(v: View, hdr: Memory, freelist: int, free: seq<int>, b: int, need: int, k: nat)
    requires Chain(hdr, freelist, free) && (forall c :: c in free ==> c in hdr && hdr[c].avail == c + HDR) && Apart(hdr)
    requires b in hdr && b !in free && hdr[b].next == 0 && hdr[b].avail == b + HDR && hdr[b].endp - hdr[b].avail >= need
    requires if k < |v.free| then b == v.free[k] && (forall c :: c in free <==> c in v.free && c != v.free[k])
      && hdr.Keys == v.hdr.Keys
             else b !in v.hdr && free == v.free && hdr.Keys == v.hdr.Keys + {b}
    requires forall c :: c in v.hdr ==> c in hdr && hdr[c].endp == v.hdr[c].endp && hdr[c].avail == v.hdr[c].avail
    requires forall c :: c in v.hdr && c !in v.free ==> hdr[c] == v.hdr[c]
    requires forall c :: c in v.free ==> c in v.hdr
    ensures Detached(v, hdr, freelist, free, b, need)
  {
    hide Chain, Apart;
  }

  /** The pool's place in a block that has just been taken is not that of another pool. */
  lemma NewPool(v: View, hdr: Memory, freelist: int, free: seq<int>, b: int, need: int)
    requires forall x :: x in v.pools ==>
      x in v.chains && v.chains[x] != [] && x == v.chains[x][0] + HDR && v.chains[x][0] in v.owner
      && v.owner[v.chains[x][0]] == x
    requires Ok(v) && 0 !in v.pools && Detached(v, hdr, freelist, free, b, need)
    ensures b + HDR !in v.pools && (b in v.owner ==> v.owner[b] == 0)
    ensures b in hdr && hdr[b].avail == b + HDR
  {
    hide Chain, Apart, KidsAt, ParentAt, BlocksAt, RegionsOk;
  }

  lemma HungIs(pools: map<int, Pool>, p: int, q: int, sub: int, pools': map<int, Pool>, b: int)
    requires p !in pools && 0 !in pools
      && (q != 0 ==> q in pools && sub == pools[q].sub && (sub == 0 || sub in pools)) && (q == 0 ==> sub == 0)
    requires var one := pools[p := Pool(b, b, 0, 0, 0, 0, p + POOL_HDR)];
             pools' == if q == 0 then one
                       else
                         var two := one[p := one[p].(parent := q, subNext := one[q].sub)];
                         var three := if sub != 0 then two[sub := two[sub].(subPrev := p)] else two;
                         three[q := three[q].(sub := p)]
    ensures pools' == (if q == 0 then pools else Hung(pools, p, q))[p :=
      Pool(b, b, 0, if q == 0 then 0 else pools[q].sub, 0, q, p + POOL_HDR)]
  {
  }

  lemma PathsGrow(path: map<int, seq<int>>, path': map<int, seq<int>>, p: int, q: int, depth: nat)
    requires (forall x :: x in path ==> |path[x]| <= depth) && (q != 0 ==> q in path)
    requires path' == path[p := if q == 0 then [p] else path[q] + [p]]
    ensures forall x :: x in path' ==> |path'[x]| <= depth + 1
  {
  }

  lemma MadeFrom(v: View, hdr: Memory, freelist: int, free: seq<int>, b: int, q: int, v': View)
    requires Ok(v) && (q == 0 || (q in v.pools && q in v.kids && q in v.path)) && b + HDR !in v.pools
      && (b in v.owner ==> v.owner[b] == 0)
    requires Detached(v, hdr, freelist, free, b, MINFREE)
    requires var p := b + HDR;
      && v'.hdr == hdr[b := hdr[b].(avail := p + POOL_HDR)] && v'.freelist == freelist && v'.free == free
      && v'.owner == v.owner[b := p] && v'.regions == v.regions && v'.chains == v.chains[p := [b]]
      && v'.path == v.path[p := if q == 0 then [p] else v.path[q] + [p]]
      && v'.kids == (if q == 0 then v.kids else v.kids[q := [p] + v.kids[q]])[p := []]
      && v'.pools == (if q == 0 then v.pools else Hung(v.pools, p, q))[p :=
        Pool(b, b, 0, if q == 0 then 0 else v.pools[q].sub, 0, q, p + POOL_HDR)]
    ensures Made(v, v', b + HDR, b, q) && Ok(v')
  {
    hide Chain, Hung, Ok, Apart, FreeOk, RegionsOk, BlocksAt, KidsAt, ParentAt, Owned;
    MeansOk(v);
    MadeLists(v', hdr, freelist, free, b);
    assert 0 < b by { Positive(hdr, b); }
    MadeOk(v, v', b + HDR, b, q);
  }

  lemma MadeOk(v: View, v': View, p: int, b: int, q: int)
    requires Ok(v) && Made(v, v', p, b, q) && 0 < b && Apart(v'.hdr) && FreeOk(v')
    ensures Ok(v')
  {
    hide *;
    MeansOk(v);
    SubIs(v, 0);
    MadeParts(v, v', p, b, q);
    MadeOwned(v, v', p, b, q);
    MadeRegions(v, v', p, b, q);
    forall x | x in v'.chains ensures BlocksAt(v', x) { MadeBlocks(v, v', p, b, q, x); }
    forall x | x in v'.pools ensures x in v'.kids && x in v'.path && KidsAt(v', x) && ParentAt(v', x) {
      MadeKids(v, v', p, b, q, x);
      MadeParent(v, v', p, b, q, x);
    }
    MeansOk(v');
  }

  lemma MadeParts(v: View, v': View, p: int, b: int, q: int)
    requires Made(v, v', p, b, q) && SameKeys(v) && 0 < b
    ensures p != 0 && SameKeys(v') && (forall x :: x in v'.chains && x in v.chains ==> x != p)
    ensures forall x :: x in v.chains || x == p <==> x in v'.chains
    ensures forall x :: x in v.pools <==> x in v.chains
  {
    hide Hung, SameKeys;
    HungKeys(v.pools, p, q);
    KeysMade(v, v', p, q);
  }

  lemma KeysMade(v: View, v': View, p: int, q: int)
    requires SameKeys(v) && p !in v.pools && (q == 0 || q in v.pools)
    requires v'.chains.Keys == v.chains.Keys + {p} && v'.pools.Keys == v.pools.Keys + {p}
      && v'.path.Keys == v.path.Keys + {p}
    requires v'.kids.Keys == v.kids.Keys + {p}
    ensures SameKeys(v') && (forall x :: x in v'.chains && x in v.chains ==> x != p)
    ensures forall x :: x in v.chains || x == p <==> x in v'.chains
    ensures forall x :: x in v.pools <==> x in v.chains
  {
    assert forall x :: x in v.pools <==> x in v.pools.Keys;
  }

  lemma HungKeys(pools: map<int, Pool>, p: int, q: int)
    requires q == 0 || q in pools
    ensures q != 0 ==> Hung(pools, p, q).Keys == pools.Keys
  {
  }

  lemma Positive(hdr: Memory, b: int)
    requires Apart(hdr) && b in hdr
    ensures 0 < b
  {
  }

  lemma MadeLists(v': View, hdr: Memory, freelist: int, free: seq<int>, b: int)
    requires Chain(hdr, freelist, free) && (forall c :: c in free ==> c in hdr && hdr[c].avail == c + HDR) && Apart(hdr)
    requires b in hdr && b !in free && hdr[b].avail == b + HDR && hdr[b].endp - hdr[b].avail >= MINFREE
    requires v'.hdr == hdr[b := hdr[b].(avail := b + HDR + POOL_HDR)] && v'.freelist == freelist && v'.free == free
    ensures Apart(v'.hdr) && FreeOk(v')
  {
    hide Chain;
    ChainKept(hdr, v'.hdr, freelist, free);
  }

  /** The last block of a has room for size bytes. */
  ghost predicate Fits(v: View, a: int, size: int) {
    a in v.pools && v.pools[a].last in v.hdr && v.hdr[v.pools[a].last].avail + size <= v.hdr[v.pools[a].last].endp
  }

  lemma FitsIs(v: View, a: int, size: int)
    requires a in v.pools && v.pools[a].last in v.hdr
    ensures Fits(v, a, size) <==> v.hdr[v.pools[a].last].avail + size <= v.hdr[v.pools[a].last].endp
  {
  }

  lemma SizePositive(req: nat)
    ensures SizeOf(req) >= 1 && SizeOf(req) >= req
  {
  }

  lemma LastBlock(v: View, a: int)
    requires Ok(v) && a in v.pools
    ensures a in v.chains && v.chains[a] != [] && v.pools[a].last == Last(v.chains[a]) && v.pools[a].last in v.hdr
    ensures v.pools[a].last in v.owner && v.owner[v.pools[a].last] == a && a != 0 && v.pools[a].last !in v.free
  {
    hide Apart, FreeOk, RegionsOk, Chain, KidsAt, ParentAt;
    assert BlocksAt(v, a);
    assert Last(v.chains[a]) in v.chains[a];
  }

  lemma FittedFrom(v: View, v': View, a: int, size: int)
    requires Ok(v) && Fits(v, a, size) && size >= 1
    requires var b := v.pools[a].last;
             v' == v.(hdr := v.hdr[b := v.hdr[b].(avail := v.hdr[b].avail + size)],
               regions := v.regions + {Region(a, b, v.hdr[b].avail, size)})
    ensures Fitted(v, v', a, size) && Ok(v')
  {
    hide Ok;
    FittedOk(v, v', a, size);
  }

  lemma DetachedParts(v: View, hdr: Memory, freelist: int, free: seq<int>, b: int, need: int, a: int)
    requires Ok(v) && Detached(v, hdr, freelist, free, b, need) && a in v.pools && v.pools[a].last in v.hdr
      && v.pools[a].last !in v.free
    ensures b in hdr && hdr[b].avail == b + HDR && v.pools[a].last in hdr && v.pools[a].last != b
  {
    hide Chain, Apart, Ok;
  }

  lemma GrownFrom(v: View, hdr: Memory, freelist: int, free: seq<int>, b: int, a: int, size: int, v': View)
    requires Ok(v) && a in v.pools && size >= 1 && Detached(v, hdr, freelist, free, b, size + MINFREE)
    requires a in v.chains && v.chains[a] != [] && v.pools[a].last == Last(v.chains[a]) && v.pools[a].last in hdr
      && v.pools[a].last != b
    requires v.pools[a].last in v.owner && v.owner[v.pools[a].last] == a && a != 0
    requires b in hdr && hdr[b].avail == b + HDR
    requires var last := v.pools[a].last;
             var hdr1 := hdr[last := hdr[last].(next := b)];
      && v'.hdr == hdr1[b := hdr1[b].(avail := hdr1[b].avail + size)] && v'.freelist == freelist && v'.free == free
      && v'.pools == v.pools[a := v.pools[a].(last := b)] && v'.chains == v.chains[a := v.chains[a] + [b]]
      && v'.owner == v.owner[b := a] && v'.kids == v.kids && v'.path == v.path
      && v'.regions == v.regions + {Region(a, b, b + HDR, size)}
    ensures Grown(v, v', a, b, size) && Ok(v')
  {
    hide Chain, Ok, Apart, FreeOk, RegionsOk, BlocksAt, KidsAt, ParentAt, Owned;
    MeansOk(v);
    Positive(hdr, b);
    FreeOwner(v, b);
    assert Grown(v, v', a, b, size);
    GrownLists(v, v', hdr, freelist, free, b, a, size);
    GrownOwned(v, v', a, b, size);
    forall x | x in v'.chains ensures BlocksAt(v', x) { GrownBlocks(v, v', a, b, size, x); }
    forall x | x in v'.pools ensures x in v'.kids && x in v'.path && KidsAt(v', x)
      && ParentAt(v', x) { GrownTree(v, v', a, b, size, x); }
    GrownRegions(v, v', a, b, size);
    assert SameKeys(v');
    MeansOk(v');
  }

  lemma FreeOwner(v: View, b: int)
    requires Owned(v) && (b in v.hdr ==> b in v.free)
    ensures b in v.owner ==> v.owner[b] == 0
  {
  }

  lemma GrownLists(v: View, v': View, hdr: Memory, freelist: int, free: seq<int>, b: int, a: int, size: int)
    requires Owned(v) && Detached(v, hdr, freelist, free, b, size + MINFREE) && a != 0 && size >= 1
    requires a in v.chains && v.chains[a] != [] && Last(v.chains[a]) in hdr && Last(v.chains[a]) != b
    requires Last(v.chains[a]) in v.owner && v.owner[Last(v.chains[a])] == a
    requires var last := Last(v.chains[a]);
             var hdr1 := hdr[last := hdr[last].(next := b)];
      && v'.hdr == hdr1[b := hdr1[b].(avail := hdr1[b].avail + size)] && v'.freelist == freelist && v'.free == free
    ensures Apart(v'.hdr) && FreeOk(v')
  {
    hide Chain, Apart;
    assert Last(v.chains[a]) !in v.free;
    ChainKept(hdr, v'.hdr, freelist, free);
    ApartRaised(hdr, v'.hdr, b);
  }

  // ----- what the invariant means -----

  /** Conservation: every block is in one place only, and once. */
  lemma InOnePlace(v: View, b: int)
    requires Ok(v) && b in v.hdr
    ensures NoDup(v.free)
    ensures b in v.free ==> forall p :: p in v.chains ==> b !in v.chains[p]
    ensures b !in v.free ==> exists p :: p in v.chains && b in v.chains[p] && NoDup(v.chains[p])
                              && forall q :: q in v.chains && q != p ==> b !in v.chains[q]
  {
    hide Apart, RegionsOk, KidsAt, ParentAt, Chain;
    ChainOnce(v.hdr, v.freelist, v.free);
    if b !in v.free {
      var p := v.owner[b];
      assert BlocksAt(v, p);
      ChainOnce(v.hdr, v.chains[p][0], v.chains[p]);
    }
  }

  lemma ChainOnce(hdr: Memory, head: int, s: seq<int>)
    requires Chain(hdr, head, s)
    ensures NoDup(s)
  {
    hide Seg;
    forall i: nat, j: nat | i < j < |s| ensures s[i] != s[j] { SegDistinct(hdr, head, s, 0, i, j); }
  }

  /** Memory that has been handed out lies apart from all other such memory, from all block headers
      and from the structures of all pools. */
  lemma NeverOverlap(v: View, r: Region)
    requires Ok(v) && r in v.regions
    ensures r.block in v.hdr && r.block + HDR <= r.addr && r.addr + r.size <= v.hdr[r.block].endp
    ensures forall s :: s in v.regions && s != r ==> r.addr + r.size <= s.addr || s.addr + s.size <= r.addr
    ensures forall b :: b in v.hdr ==> r.addr + r.size <= b || b + HDR <= r.addr
    ensures forall p :: p in v.pools ==> r.addr + r.size <= p || p + POOL_HDR <= r.addr
  {
    hide Ok, Owned, Disjoint, Apart;
    RegionParts(v, r);
    RegionsApart(v);
    forall s | s in v.regions && s != r ensures r.addr + r.size <= s.addr || s.addr + s.size <= r.addr {
      DisjointIs(r, s);
    }
    forall b | b in v.hdr ensures r.addr + r.size <= b || b + HDR <= r.addr { PastHeader(v, r, b); }
    InBlock(v, r);
    forall p | p in v.pools ensures r.addr + r.size <= p || p + POOL_HDR <= r.addr { PastPool(v, r, p); }
  }

  lemma DisjointIs(r: Region, s: Region)
    ensures Disjoint(r, s) <==> r.addr + r.size <= s.addr || s.addr + s.size <= r.addr
  {
  }

  lemma InBlock(v: View, r: Region)
    requires RegionAt(v, r) && Apart(v.hdr)
    ensures r.block in v.hdr && r.block + HDR <= r.addr && r.addr + r.size <= v.hdr[r.block].endp
  {
  }

  lemma PastHeader(v: View, r: Region, b: int)
    requires RegionAt(v, r) && Apart(v.hdr) && b in v.hdr
    ensures r.addr + r.size <= b || b + HDR <= r.addr
  {
  }

  lemma PastPool(v: View, r: Region, p: int)
    requires Ok(v) && RegionAt(v, r) && p in v.pools
    ensures r.addr + r.size <= p || p + POOL_HDR <= r.addr
  {
    hide Chain, KidsAt, ParentAt, FreeOk, RegionsOk;
    assert BlocksAt(v, p);
    if v.chains[p][0] == r.block { OwnPool(v, p, r); }
  }

  lemma OwnPool(v: View, p: int, r: Region)
    requires Owned(v) && p in v.chains && v.chains[p] != [] && RegionAt(v, r) && r.block == v.chains[p][0]
    ensures r.pool == p
  {
    assert v.chains[p][0] in v.chains[p];
  }

  /** All that is handed out, and the room behind it, is aligned. */
  ghost predicate Aligned(v: View) {
    && (forall b :: b in v.hdr ==> v.hdr[b].avail % ALIGN == 0)
    && forall r :: r in v.regions ==> r.addr % ALIGN == 0
  }

  /** Requests for at least one byte keep everything aligned; a request for none spoils it. */
  lemma AlignedPalloc(v: View, v': View, a: int, b: int, req: nat)
    requires Ok(v) && Ok(v') && Aligned(v) && (Fitted(v, v', a, SizeOf(req)) || Grown(v, v', a, b, SizeOf(req)))
    ensures req >= 1 ==> Aligned(v')
    ensures req == 0 ==> !Aligned(v')
  {
    hide Ok, Aligned, Fitted, Grown, SizeOf;
    SizeOfNone();
    if Fitted(v, v', a, SizeOf(req)) {
      AlignedFitted(v, v', a, SizeOf(req));
    } else {
      BlocksAligned(v');
      AlignedGrown(v, v', a, b, SizeOf(req));
    }
  }

  lemma AlignedFitted(v: View, v': View, a: int, size: int)
    requires Aligned(v) && Fitted(v, v', a, size)
    ensures Aligned(v') <==> size % ALIGN == 0
  {
    var c := v.pools[a].last;
    SumAligned(v.hdr[c].avail, size);
    assert c in v'.hdr && v'.hdr[c].avail == v.hdr[c].avail + size;
  }

  lemma AlignedGrown(v: View, v': View, a: int, b: int, size: int)
    requires Aligned(v) && Grown(v, v', a, b, size) && forall c :: c in v'.hdr ==> c % ALIGN == 0
    ensures Aligned(v') <==> size % ALIGN == 0
  {
    SumAligned(b, HDR);
    SumAligned(b + HDR, size);
    assert v'.hdr[b].avail == b + HDR + size;
  }

  lemma SizeOfNone()
    ensures SizeOf(0) == 1
  {
  }

  lemma SumAligned(x: int, y: int)
    requires x % ALIGN == 0
    ensures (x + y) % ALIGN == y % ALIGN
  {
  }

  lemma AlignedElse(v: View, v': View, a: int, b: int, q: int)
    requires Ok(v) && Ok(v') && Aligned(v) && (Made(v, v', a, b, q) || AfterClear(v, v', a) || AfterDestroy(v, v', a))
    ensures Aligned(v')
  {
    hide Ok, Below, Hung;
    BlocksAligned(v);
    BlocksAligned(v');
    forall c | c in v'.hdr ensures v'.hdr[c].avail % ALIGN == 0 {
      if c in v'.free {
        SumAligned(c, HDR);
      } else if Made(v, v', a, b, q) {
        if c == b { SumAligned(b, HDR + POOL_HDR); }
      } else {
        assert SameOwner(v, v', c);
        if v'.hdr[c].avail != v.hdr[c].avail { SumAligned(c, HDR + POOL_HDR); }
      }
    }
  }

  lemma BlocksAligned(v: View)
    requires Ok(v)
    ensures forall b :: b in v.hdr ==> b % ALIGN == 0 && b in v.owner && (v.owner[b] == 0 ==> b in v.free)
    ensures forall b :: b in v.free ==> b in v.hdr && v.hdr[b].avail == b + HDR
    ensures forall p :: p in v.chains ==> v.chains[p] != [] && p == v.chains[p][0] + HDR
  {
    hide Chain, KidsAt, ParentAt, RegionsOk;
    forall p | p in v.chains ensures v.chains[p] != [] && p == v.chains[p][0] + HDR { assert BlocksAt(v, p); }
  }
}
