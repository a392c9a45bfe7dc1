/** free, morecore and malloc over the circular free list. */
module Umalloc {
  import opened FreeList
  import opened Numbers

  const HEADER_BYTES := 8
  const MIN_UNITS := 4096

  // ----- ownership of units -----

  ghost predicate InLive(live: map<int, int>, u: int) {
    exists a :: a in live && Holds(Chunk(a, live[a]), u)
  }

  /** Live blocks overlap neither each other nor a free block, and every unit
      obtained from sbrk is in exactly one block, free or live. */
  ghost predicate Balanced(base: int, fl: seq<Chunk>, live: map<int, int>, obtained: set<int>) {
    && Gaps(base, fl)
    && (forall a :: a in live ==> base < a && 1 <= live[a])
    && (forall a, b {:trigger Apart(Chunk(a, live[a]), Chunk(b, live[b]))} ::
          a in live && b in live && a != b ==> Apart(Chunk(a, live[a]), Chunk(b, live[b])))
    && (forall a {:trigger ApartFromAll(Chunk(a, live[a]), fl)} :: a in live ==> ApartFromAll(Chunk(a, live[a]), fl))
    && (forall u :: u in obtained <==> InFree(fl, u) || InLive(live, u))
  }

  lemma OverlapUnit(c: Chunk, d: Chunk) returns (u: int)
    requires !Apart(c, d) && 1 <= c.n && 1 <= d.n
    ensures Holds(c, u) && Holds(d, u)
  {
    u := if c.a <= d.a then d.a else c.a;
  }

  lemma ApartByUnits(base: int, d: Chunk, fl: seq<Chunk>)
    requires 1 <= d.n && Gaps(base, fl)
    requires forall u :: Holds(d, u) ==> !InFree(fl, u)
    ensures ApartFromAll(d, fl)
  {
    Sizes(base, fl);
    forall i | 0 <= i < |fl| ensures Apart(d, fl[i]) {
      if !Apart(d, fl[i]) {
        var u := OverlapUnit(d, fl[i]);
        assert InFree(fl, u);
      }
    }
  }

  lemma UnitsApart(d: Chunk, fl: seq<Chunk>, u: int)
    requires ApartFromAll(d, fl) && Holds(d, u)
    ensures !InFree(fl, u)
  {
    forall i | 0 <= i < |fl| ensures !Holds(fl[i], u) {
      assert Apart(d, fl[i]);
    }
  }

  lemma FreeBalances(base: int, fl: seq<Chunk>, live: map<int, int>, obtained: set<int>, a: int)
    requires Balanced(base, fl, live, obtained) && a in live
    ensures Balanced(base, Insert(fl, Chunk(a, live[a])), live - {a}, obtained)
  {
    var c := Chunk(a, live[a]);
    var fl', live' := Insert(fl, c), live - {a};
    InsertGaps(base, fl, c);
    forall b | b in live' ensures ApartFromAll(Chunk(b, live'[b]), fl') {
      var d := Chunk(b, live[b]);
      assert Apart(c, d);
      forall u | Holds(d, u) ensures !InFree(fl', u) {
        InsertUnits(base, fl, c, u);
        UnitsApart(d, fl, u);
      }
      ApartByUnits(base, d, fl');
    }
    forall u ensures u in obtained <==> InFree(fl', u) || InLive(live', u) {
      InsertUnits(base, fl, c, u);
      if InLive(live, u) {
        var b :| b in live && Holds(Chunk(b, live[b]), u);
        assert b == a || (b in live' && Holds(Chunk(b, live'[b]), u));
      }
      if InLive(live', u) {
        var b :| b in live' && Holds(Chunk(b, live'[b]), u);
        assert b in live && Holds(Chunk(b, live[b]), u);
      }
      if Holds(c, u) { assert InLive(live, u); }
    }
  }

  lemma GrowBalances(base: int, fl: seq<Chunk>, live: map<int, int>, obtained: set<int>, c: Chunk, more: set<int>)
    requires Balanced(base, fl, live, obtained) && base < c.a && 1 <= c.n
    requires forall u :: u in more <==> Holds(c, u)
    requires more !! obtained
    ensures c.a !in live && Balanced(base, fl, live[c.a := c.n], obtained + more)
  {
    var live' := live[c.a := c.n];
    assert Holds(c, c.a);
    forall b | b in live ensures b != c.a {
      assert Holds(Chunk(b, live[b]), b);
      assert InLive(live, b);
    }
    forall b | b in live ensures Apart(Chunk(b, live[b]), c) {
      if !Apart(Chunk(b, live[b]), c) {
        var u := OverlapUnit(Chunk(b, live[b]), c);
        assert InLive(live, u);
      }
    }
    forall u | Holds(c, u) ensures !InFree(fl, u) { }
    ApartByUnits(base, c, fl);
    forall u ensures u in obtained + more <==> InFree(fl, u) || InLive(live', u) {
      if InLive(live, u) {
        var b :| b in live && Holds(Chunk(b, live[b]), u);
        assert b in live' && Holds(Chunk(b, live'[b]), u);
      }
      if InLive(live', u) {
        var b :| b in live' && Holds(Chunk(b, live'[b]), u);
        if b != c.a { assert b in live && Holds(Chunk(b, live[b]), u); }
      }
      if u in more { assert c.a in live' && Holds(Chunk(c.a, live'[c.a]), u); }
    }
  }

  lemma TakeBalances(base: int, fl: seq<Chunk>, live: map<int, int>, obtained: set<int>, k: nat, n: int)
    requires Balanced(base, fl, live, obtained) && k < |fl| && 1 <= n <= fl[k].n
    ensures var c := Taken(fl, k, n);
            c.a !in live && Balanced(base, Take(fl, k, n), live[c.a := n], obtained)
  {
    var c, fl' := Taken(fl, k, n), Take(fl, k, n);
    var live' := live[c.a := n];
    TakeGaps(base, fl, k, n);
    GapsAt(base, fl, k, k);
    forall b | b in live
      ensures ApartFromAll(Chunk(b, live[b]), fl') && Apart(Chunk(b, live[b]), c) && b != c.a
    {
      var d := Chunk(b, live[b]);
      forall u | Holds(d, u) ensures !InFree(fl', u) {
        TakeUnits(base, fl, k, n, u);
        UnitsApart(d, fl, u);
      }
      ApartByUnits(base, d, fl');
      assert ApartFromAll(d, fl) && Apart(d, fl[k]);
    }
    forall u ensures u in obtained <==> InFree(fl', u) || InLive(live', u) {
      TakeUnits(base, fl, k, n, u);
      if InLive(live, u) {
        var b :| b in live && Holds(Chunk(b, live[b]), u);
        assert b in live' && Holds(Chunk(b, live'[b]), u);
      }
      if InLive(live', u) {
        var b :| b in live' && Holds(Chunk(b, live'[b]), u);
        if b != c.a { assert b in live && Holds(Chunk(b, live[b]), u); }
      }
      if Holds(c, u) { assert c.a in live' && Holds(Chunk(c.a, live'[c.a]), u); }
    }
  }

  // ----- the search of free -----

  /** The two conditions under which the search of free stops at `p`. */
  predicate StopsAt(p: int, next: int, bp: int) {
    (bp > p && bp < next) || (p >= next && (bp > p || bp < next))
  }

  /** The search stops at exactly one node: the last one below the block. */
  lemma StopsOnce(mem: Memory, base: int, fl: seq<Chunk>, c: Chunk, j: nat)
    requires Gaps(base, fl) && Linked(mem, base, fl) && base < c.a && 1 <= c.n && ApartFromAll(c, fl)
    requires j <= |fl|
    ensures Addr(base, fl, j) in mem
    ensures StopsAt(Addr(base, fl, j), mem[Addr(base, fl, j)].ptr, c.a) <==> j == Below(fl, c.a)
  {
    var k := Below(fl, c.a);
    BelowSplits(base, fl, c.a);
    assert LinkedAt(mem, base, fl, j);
    if k < |fl| { GapsAt(base, fl, k, k); }
    assert k < |fl| ==> Apart(c, fl[k]) && c.a < Addr(base, fl, k + 1);
    assert Addr(base, fl, k) < c.a;
    if j < |fl| { DistinctNodes(base, fl, j, j + 1); }
    if 0 < j { DistinctNodes(base, fl, 0, j); }
    if j < k {
      if j + 1 < k { DistinctNodes(base, fl, j + 1, k); }
      assert Addr(base, fl, j + 1) <= Addr(base, fl, k);
    } else if k < j {
      if k + 1 < j { DistinctNodes(base, fl, k + 1, j); }
      assert Addr(base, fl, k + 1) <= Addr(base, fl, j);
    }
  }

  // ----- the search of malloc -----

  /** Requested bytes in units, with one unit for the header. */
  function Units(nbytes: nat): nat { (nbytes + HEADER_BYTES - 1) / HEADER_BYTES + 1 }

  function Grown(nunits: nat): nat { if nunits < MIN_UNITS then MIN_UNITS else nunits }

  /** Some block of the list has `n` units. */
  ghost predicate SomeFits(fl: seq<Chunk>, n: int) {
    exists k :: 0 < k <= |fl| && SizeOf(fl, k) >= n
  }

  lemma NoneFitsMore(fl: seq<Chunk>, start: nat, d: nat, n: int)
    requires start <= |fl| && 1 <= d <= |fl| + 1 && NoneFits(fl, start, d, n)
    requires SizeOf(fl, Along(start, d, |fl|)) < n
    ensures NoneFits(fl, start, d + 1, n)
  {
  }

  /** A full turn without a fit means there is none. */
  lemma FullTurn(fl: seq<Chunk>, start: nat, n: int)
    requires start <= |fl| && NoneFits(fl, start, |fl| + 2, n)
    ensures !SomeFits(fl, n)
  {
    forall k | 0 < k <= |fl| ensures SizeOf(fl, k) < n {
      var e := if k > start then k - start else k - start + |fl| + 1;
      assert Along(start, e, |fl|) == k;
    }
  }

  /** The search is back where it started exactly after a full turn. */
  lemma SameNode(base: int, fl: seq<Chunk>, start: nat, d: nat)
    requires Gaps(base, fl) && start <= |fl| && 1 <= d <= |fl| + 1
    ensures Addr(base, fl, Along(start, d, |fl|)) == Addr(base, fl, start) <==> d == |fl| + 1
  {
    var k := Along(start, d, |fl|);
    if k < start { DistinctNodes(base, fl, k, start); } else if start < k { DistinctNodes(base, fl, start, k); }
  }

  /** After inserting a block of `n` units some block has `n` units. */
  lemma InsertFits(base: int, fl: seq<Chunk>, c: Chunk)
    requires Gaps(base, fl) && 1 <= c.n
    ensures SomeFits(Insert(fl, c), c.n)
  {
    InsertIsSplice(base, fl, c);
    var k := Below(fl, c.a);
    var x, i, j := Merged(fl, c, k), SpliceFrom(fl, c, k), SpliceTo(fl, c, k);
    if k > 0 { GapsAt(base, fl, k - 1, k - 1); }
    if k < |fl| { GapsAt(base, fl, k, k); }
    assert x.n >= c.n;
    SpliceNodes(base, fl, i, x, j, i + 1);
  }

  // ----- the whole heap -----

  ghost predicate HeapOk(base: int, mem: Memory, freep: int, fl: seq<Chunk>, live: map<int, int>, obtained: set<int>) {
    && 0 < base && base in mem && obtained <= mem.Keys
    && Balanced(base, fl, live, obtained)
    && (if freep == 0 then fl == [] && live == map[]
        else Linked(mem, base, fl) && exists k: nat :: k <= |fl| && freep == Addr(base, fl, k))
    && forall a :: a in live ==> a in mem && mem[a].size == live[a]
  }

  /** No live block's header is a node of the ring. */
  lemma LiveNotNode(base: int, fl: seq<Chunk>, live: map<int, int>, obtained: set<int>, a: int, k: nat)
    requires Balanced(base, fl, live, obtained) && a in live && k <= |fl|
    ensures a != Addr(base, fl, k)
  {
    Sizes(base, fl);
    if k > 0 { assert ApartFromAll(Chunk(a, live[a]), fl) && Apart(Chunk(a, live[a]), fl[k-1]); }
  }

  lemma FreeReady(base: int, mem: Memory, freep: int, fl: seq<Chunk>, live: map<int, int>, obtained: set<int>, bp: int)
    requires HeapOk(base, mem, freep, fl, live, obtained) && bp in live
    ensures var c, p := Chunk(bp, live[bp]), Addr(base, fl, Below(fl, bp));
            && InsertPoint(mem, base, fl, c, Below(fl, bp))
            && bp in mem && p in mem && p != bp && mem[p].ptr in mem && mem[p].ptr != bp
  {
    var c, k := Chunk(bp, live[bp]), Below(fl, bp);
    RelinkHeaders(mem, base, fl, c, k);
    RelinkNodes(mem, base, fl, c, k);
  }

  lemma FreeOk(base: int, mem: Memory, freep: int, fl: seq<Chunk>, live: map<int, int>, obtained: set<int>, bp: int)
    requires HeapOk(base, mem, freep, fl, live, obtained) && bp in live
    ensures var c, p := Chunk(bp, live[bp]), Addr(base, fl, Below(fl, bp));
            && p in mem && bp in mem && mem[p].ptr in mem
            && Relink(mem, p, bp).Keys == mem.Keys
            && Below(fl, bp) <= |Insert(fl, c)| && p == Addr(base, Insert(fl, c), Below(fl, bp))
            && HeapOk(base, Relink(mem, p, bp), p, Insert(fl, c), live - {bp}, obtained)
  {
    var c, k := Chunk(bp, live[bp]), Below(fl, bp);
    var p := Addr(base, fl, k);
    FreeReady(base, mem, freep, fl, live, obtained, bp);
    RelinkInserts(mem, base, fl, c, k);
    RelinkNodes(mem, base, fl, c, k);
    FreeBalances(base, fl, live, obtained, bp);
    forall a | a in live && a != bp ensures Relink(mem, p, bp)[a] == mem[a] {
      LiveNotNode(base, fl, live, obtained, a, k);
    }
    Sizes(base, fl);
  }

  // ----- growing -----

  /** Fresh units `a .. a + n`, zeroed, read as headers. */
  function Zeroed(mem: Memory, a: int, n: nat): Memory {
    mem + (map u | u in Interval(a, n) :: Header(0, 0))
  }

  lemma InListMeansInMem(base: int, mem: Memory, freep: int, fl: seq<Chunk>, live: map<int, int>, obtained: set<int>)
    requires HeapOk(base, mem, freep, fl, live, obtained)
    ensures forall k :: 0 <= k < |fl| ==> fl[k].a in obtained
    ensures forall a :: a in live ==> a in obtained
    ensures base !in obtained
  {
    Sizes(base, fl);
    forall k | 0 <= k < |fl| ensures fl[k].a in obtained {
      assert Holds(fl[k], fl[k].a);
      assert InFree(fl, fl[k].a);
    }
    forall a | a in live ensures a in obtained {
      assert Holds(Chunk(a, live[a]), a);
      assert InLive(live, a);
    }
    assert !InFree(fl, base) && !InLive(live, base);
  }

  /** The heap depends only on `base` and the units obtained. */
  lemma HeapFrame(base: int, mem: Memory, mem': Memory, freep: int, fl: seq<Chunk>, live: map<int, int>,
                  obtained: set<int>)
    requires HeapOk(base, mem, freep, fl, live, obtained)
    requires base in mem' && mem'[base] == mem[base]
    requires forall u :: u in obtained ==> u in mem' && mem'[u] == mem[u]
    ensures HeapOk(base, mem', freep, fl, live, obtained)
  {
    InListMeansInMem(base, mem, freep, fl, live, obtained);
    assert forall u :: u in obtained ==> u in mem'.Keys;
    if freep != 0 {
      forall k: nat | k <= |fl|
        ensures LinkedAt(mem', base, fl, k)
      {
        assert LinkedAt(mem, base, fl, k);
        assert k > 0 ==> fl[k-1].a in obtained;
      }
    }
  }

  /** Fresh units can be taken in as one live block, linked nowhere yet. */
  lemma GrowOk(base: int, mem: Memory, freep: int, fl: seq<Chunk>, live: map<int, int>, obtained: set<int>, a: int,
               n: nat)
    requires HeapOk(base, mem, freep, fl, live, obtained) && freep != 0
    requires base < a && 1 <= n && Interval(a, n) !! obtained
    ensures a !in live
    ensures HeapOk(base, Zeroed(mem, a, n)[a := Header(0, n)], freep, fl, live[a := n], obtained + Interval(a, n))
  {
    GrowFrame(base, mem, freep, fl, live, obtained, a, n);
    GrowBalances(base, fl, live, obtained, Chunk(a, n), Interval(a, n));
  }

  lemma GrowFrame(base: int, mem: Memory, freep: int, fl: seq<Chunk>, live: map<int, int>, obtained: set<int>, a: int,
                  n: nat)
    requires HeapOk(base, mem, freep, fl, live, obtained)
    requires base < a && 1 <= n && Interval(a, n) !! obtained
    ensures var mem' := Zeroed(mem, a, n)[a := Header(0, n)];
            HeapOk(base, mem', freep, fl, live, obtained) && Interval(a, n) <= mem'.Keys
  {
    var mem' := Zeroed(mem, a, n)[a := Header(0, n)];
    assert a in Interval(a, n);
    HeapFrame(base, mem, mem', freep, fl, live, obtained);
  }

  lemma TakenOut(live: map<int, int>, a: int, n: int)
    requires a !in live
    ensures live[a := n] - {a} == live
  {
  }

  // ----- taking -----

  /** The headers written by malloc when node `p` behind `prevp` fits. */
  function Allocate(mem: Memory, prevp: int, p: int, n: int): Memory
    requires prevp in mem && p in mem && p + mem[p].size - n in mem
  {
    if mem[p].size == n then mem[prevp := Header(mem[p].ptr, mem[prevp].size)]
    else
      var cut := p + mem[p].size - n;
      mem[p := Header(mem[p].ptr, mem[p].size - n)][cut := Header(mem[cut].ptr, n)]
  }

  lemma TakeNodes(mem: Memory, base: int, fl: seq<Chunk>, k: nat, n: nat)
    requires Gaps(base, fl) && Linked(mem, base, fl) && k < |fl| && 1 <= n <= fl[k].n
    ensures Addr(base, fl, k) in mem && fl[k].a in mem && mem[fl[k].a].size == fl[k].n
    ensures Addr(base, fl, k) < fl[k].a
    ensures k <= |Take(fl, k, n)| && Addr(base, Take(fl, k, n), k) == Addr(base, fl, k)
  {
    assert LinkedAt(mem, base, fl, k) && LinkedAt(mem, base, fl, k + 1);
    DistinctNodes(base, fl, k, k + 1);
  }

  lemma TakeLinked(mem: Memory, base: int, fl: seq<Chunk>, k: nat, n: nat)
    requires Gaps(base, fl) && Linked(mem, base, fl) && k < |fl| && 1 <= n <= fl[k].n
    requires Taken(fl, k, n).a in mem
    requires Addr(base, fl, k) in mem && fl[k].a in mem && mem[fl[k].a].size == fl[k].n
    ensures Linked(Allocate(mem, Addr(base, fl, k), fl[k].a, n), base, Take(fl, k, n))
  {
    UnlinkTakes(mem, base, fl, k);
    if n < fl[k].n {
      CarveTakes(mem, base, fl, k, n, Header(mem[Taken(fl, k, n).a].ptr, n));
    }
  }

  /** Allocating `n` units from block `k` of the list. */
  lemma TakeOk(base: int, mem: Memory, freep: int, fl: seq<Chunk>, live: map<int, int>, obtained: set<int>, k: nat,
               n: nat)
    requires HeapOk(base, mem, freep, fl, live, obtained) && freep != 0
    requires k < |fl| && 1 <= n <= fl[k].n
    ensures var q, p, c := Addr(base, fl, k), fl[k].a, Taken(fl, k, n);
            && q in mem && p in mem && mem[p].size == fl[k].n && c.a == p + mem[p].size - n && c.a in mem
            && c.a !in live && k <= |Take(fl, k, n)| && q == Addr(base, Take(fl, k, n), k)
            && HeapOk(base, Allocate(mem, q, p, n), q, Take(fl, k, n), live[c.a := n], obtained)
  {
    var q, p, c := Addr(base, fl, k), fl[k].a, Taken(fl, k, n);
    assert Holds(fl[k], c.a);
    assert InFree(fl, c.a);
    TakeNodes(mem, base, fl, k, n);
    TakeLinked(mem, base, fl, k, n);
    TakeBalances(base, fl, live, obtained, k, n);
    var mem' := Allocate(mem, q, p, n);
    forall a | a in live ensures a in mem' && mem'[a].size == live[a] {
      LiveNotNode(base, fl, live, obtained, a, k);
      LiveNotNode(base, fl, live, obtained, a, k + 1);
    }
    NodeNonzero(base, fl, k);
  }

  lemma NodeNonzero(base: int, fl: seq<Chunk>, k: nat)
    requires 0 < base && Gaps(base, fl) && k <= |fl|
    ensures base <= Addr(base, fl, k)
  {
    if k > 0 { GapsAt(base, fl, k - 1, k - 1); }
  }

  /** `a` is the block that first fit takes from `fl0`, searching from node `start`;
      `fl` is what is left and `freep` the node before it. */
  ghost predicate Allocates(base: int, fl0: seq<Chunk>, start: nat, n: int, fl: seq<Chunk>, a: int, freep: int) {
    exists k: nat :: k < |fl0| && FirstFit(fl0, start, k + 1, n)
      && fl == Take(fl0, k, n) && a == Taken(fl0, k, n).a
      && k <= |fl| && freep == Addr(base, fl, k)
  }

  /** The node at which the search of malloc starts. */
  ghost predicate StartsAt(base: int, freep: int, fl: seq<Chunk>, start: nat) {
    start <= |fl| && (if freep == 0 then start == 0 else freep == Addr(base, fl, start))
  }

  /** What malloc promises about the block at `a`: taken by first fit from the list
      as it was or, if nothing there was large enough, from the list with the region
      answered by sbrk inserted. */
  ghost predicate Served(base: int, freep0: int, fl0: seq<Chunk>, obtained0: set<int>, brk: int, n: nat,
                         freep: int, fl: seq<Chunk>, obtained: set<int>, a: int)
  {
    if SomeFits(fl0, n) then
      && obtained == obtained0
      && exists start: nat :: StartsAt(base, freep0, fl0, start) && Allocates(base, fl0, start, n, fl, a, freep)
    else
      && brk != -1 && obtained == obtained0 + Interval(brk, Grown(n))
      && Allocates(base, Insert(fl0, Chunk(brk, Grown(n))), Below(fl0, brk), n, fl, a, freep)
  }

  /** The search of malloc, before or after it has asked sbrk. */
  ghost predicate Phase(grown: bool, base: int, freep0: int, fl0: seq<Chunk>, obtained0: set<int>, brk: int, n: nat,
                        fl: seq<Chunk>, obtained: set<int>, start: nat)
  {
    if !grown then fl == fl0 && obtained == obtained0 && StartsAt(base, freep0, fl0, start)
    else
      && brk != -1 && !SomeFits(fl0, n) && SomeFits(fl, n)
      && fl == Insert(fl0, Chunk(brk, Grown(n))) && start == Below(fl0, brk)
      && obtained == obtained0 + Interval(brk, Grown(n))
  }

  lemma Conclude(grown: bool, base: int, freep0: int, fl0: seq<Chunk>, obtained0: set<int>, brk: int, n: nat,
                 fl1: seq<Chunk>, obtained: set<int>, start: nat, k: nat, freep: int)
    requires Phase(grown, base, freep0, fl0, obtained0, brk, n, fl1, obtained, start)
    requires k < |fl1| && SomeFits(fl1, n) && FirstFit(fl1, start, k + 1, n)
    requires k <= |Take(fl1, k, n)| && freep == Addr(base, Take(fl1, k, n), k)
    ensures Served(base, freep0, fl0, obtained0, brk, n, freep, Take(fl1, k, n), obtained, Taken(fl1, k, n).a)
  {
    assert Allocates(base, fl1, start, n, Take(fl1, k, n), Taken(fl1, k, n).a, freep);
  }

  class Heap {
    /** Address of the static header `base`. */
    const base: int
    var mem: Memory
    /** 0 until the first call of malloc. */
    var freep: int
    /** The free blocks in address order, the live blocks by address, and the units
        obtained from sbrk. */
    ghost var fl: seq<Chunk>
    ghost var live: map<int, int>
    ghost var obtained: set<int>

    ghost predicate Valid()
      reads this
    {
      HeapOk(base, mem, freep, fl, live, obtained)
    }

    constructor (base: int)
      requires 0 < base
      ensures Valid() && this.base == base && freep == 0 && fl == [] && live == map[] && obtained == {}
    {
      this.base := base;
      mem := map[base := Header(0, 0)];
      freep, fl, live, obtained := 0, [], map[], {};
    }

    /** The program writes inside a live block. */
    method Store(a: int, h: Header)
      requires Valid() && exists b :: b in live && b < a < b + live[b]
      modifies this`mem
      ensures Valid()
    {
      ghost var b :| b in live && b < a < b + live[b];
      NotAHeader(b, a);
      var mem' := mem[a := h];
      forall k: nat | k <= |fl| ensures LinkedAt(mem', base, fl, k) {
        NodeOk(k);
      }
      mem := mem';
    }

    lemma NotAHeader(b: int, a: int)
      requires Valid() && b in live && b < a < b + live[b]
      ensures a != base && (forall c :: c in live ==> c != a)
      ensures forall k: nat :: k <= |fl| ==> Addr(base, fl, k) != a
    {
      forall c | c in live ensures c != a {
        assert c != b ==> Apart(Chunk(b, live[b]), Chunk(c, live[c]));
      }
      Sizes(base, fl);
      forall k: nat | k <= |fl| ensures Addr(base, fl, k) != a {
        if k > 0 { assert ApartFromAll(Chunk(b, live[b]), fl) && Apart(Chunk(b, live[b]), fl[k-1]); }
      }
    }

    /** The search of free: from `freep` around the ring to the last free block
        below `bp`. */
    method Search(bp: int) returns (p: int)
      requires Valid() && bp in live
      ensures p == Addr(base, fl, Below(fl, bp))
    {
      ghost var c := Chunk(bp, live[bp]);
      ghost var k := Below(fl, bp);
      ghost var j: nat :| j <= |fl| && freep == Addr(base, fl, j);
      p := freep;
      StopsOnce(mem, base, fl, c, j);
      while !(bp > p && bp < mem[p].ptr)
        invariant j <= |fl| && p == Addr(base, fl, j) && p in mem
        invariant StopsAt(p, mem[p].ptr, bp) <==> j == k
        decreases if j <= k then k - j else k - j + |fl| + 1
      {
        if p >= mem[p].ptr && (bp > p || bp < mem[p].ptr) {
          break;
        }
        NodeOk(j);
        j := Next(j, |fl|);
        p := mem[p].ptr;
        StopsOnce(mem, base, fl, c, j);
      }
    }

    /** Returns the block whose payload starts at `ap`. */
    method Free(ap: int)
      requires Valid() && ap - 1 in live
      modifies this`mem, this`freep, this`fl, this`live
      ensures Valid()
      ensures fl == Insert(old(fl), Chunk(ap - 1, old(live)[ap - 1]))
      ensures live == old(live) - {ap - 1}
      ensures mem.Keys == old(mem.Keys)
      ensures Below(old(fl), ap - 1) <= |fl| && freep == Addr(base, fl, Below(old(fl), ap - 1))
    {
      var bp := ap - 1;
      ghost var c := Chunk(bp, live[bp]);
      ghost var k := Below(fl, bp);
      var p := Search(bp);
      FreeReady(base, mem, freep, fl, live, obtained, bp);
      FreeOk(base, mem, freep, fl, live, obtained, bp);
      Splice(bp, p);
      fl := Insert(fl, c);
      live := live - {bp};
    }

    /** Links the block in behind `p`, merging with both neighbours. */
    method Splice(bp: int, p: int)
      requires p in mem && bp in mem && p != bp && mem[p].ptr in mem
      requires mem[p].ptr != bp
      modifies this`mem, this`freep
      ensures mem == Relink(old(mem), p, bp) && freep == p
    {
      var next := mem[p].ptr;
      if bp + mem[bp].size == next {
        mem := mem[bp := Header(mem[next].ptr, mem[bp].size + mem[next].size)];
      } else {
        mem := mem[bp := Header(next, mem[bp].size)];
      }
      if p + mem[p].size == bp {
        mem := mem[p := Header(mem[bp].ptr, mem[p].size + mem[bp].size)];
      } else {
        mem := mem[p := Header(bp, mem[p].size)];
      }
      freep := p;
    }

    /** Asks for at least `nu` units; `brk` is what sbrk answers. */
    method Morecore(nu: nat, brk: int) returns (p: int)
      requires Valid() && freep != 0 && 1 <= nu
      requires brk == -1 || (base < brk && Interval(brk, Grown(nu)) !! obtained)
      modifies this
      ensures Valid()
      ensures brk == -1 ==> p == 0 && unchanged(this)
      ensures brk != -1 ==>
                && fl == Insert(old(fl), Chunk(brk, Grown(nu)))
                && live == old(live) && obtained == old(obtained) + Interval(brk, Grown(nu))
                && p == freep && Below(old(fl), brk) <= |fl| && p == Addr(base, fl, Below(old(fl), brk))
    {
      var units := if nu < MIN_UNITS then MIN_UNITS else nu;
      if brk == -1 {
        return 0;
      }
      TakeIn(brk, units);
      Free(brk + 1);
      p := freep;
    }

    /** The region becomes one block, not yet linked into the ring. */
    method TakeIn(brk: int, units: nat)
      requires Valid() && freep != 0 && base < brk && 1 <= units && Interval(brk, units) !! obtained
      modifies this`mem, this`live, this`obtained
      ensures Valid() && brk !in old(live) && live == old(live)[brk := units] && live - {brk} == old(live)
      ensures obtained == old(obtained) + Interval(brk, units)
    {
      GrowOk(base, mem, freep, fl, live, obtained, brk, units);
      TakenOut(live, brk, units);
      mem := Zeroed(mem, brk, units)[brk := Header(0, units)];
      obtained := obtained + Interval(brk, units);
      live := live[brk := units];
    }

    /** Takes `n` units from node `p` behind `prevp`. */
    method Cut(prevp: int, p: int, n: nat, ghost k: nat) returns (r: int)
      requires Valid() && freep != 0 && k < |fl| && 1 <= n <= fl[k].n
      requires prevp == Addr(base, fl, k) && p == fl[k].a
      modifies this`mem, this`freep, this`fl, this`live
      ensures Valid() && fl == Take(old(fl), k, n)
      ensures r == Taken(old(fl), k, n).a && 0 < r && r !in old(live) && live == old(live)[r := n]
      ensures k <= |fl| && freep == Addr(base, fl, k)
    {
      TakeOk(base, mem, freep, fl, live, obtained, k, n);
      GapsAt(base, fl, k, k);
      ghost var mem0 := mem;
      r := p;
      if mem[p].size == n {
        mem := mem[prevp := Header(mem[p].ptr, mem[prevp].size)];
      } else {
        mem := mem[p := Header(mem[p].ptr, mem[p].size - n)];
        r := p + mem[p].size;
        mem := mem[r := Header(mem[r].ptr, n)];
      }
      assert mem == Allocate(mem0, prevp, p, n);
      freep := prevp;
      live := live[r := n];
      fl := Take(fl, k, n);
    }

    /** On the first call, links `base` to itself. */
    method Prepare(ghost n: nat) returns (ghost start: nat)
      requires Valid()
      modifies this`mem, this`freep
      ensures Valid() && freep != 0 && StartsAt(base, old(freep), fl, start)
      ensures freep in mem && AtNode(fl, start, 1, freep, mem[freep].ptr, n)
    {
      if freep == 0 {
        mem := mem[base := Header(base, 0)];
        freep := base;
        assert freep == Addr(base, fl, 0);
        start := 0;
      } else {
        start :| start <= |fl| && freep == Addr(base, fl, start);
      }
      StartNode(start, n);
    }

    /** The search found node `p` large enough. */
    method TakeHere(prevp: int, p: int, n: nat, ghost brk: int, ghost grown: bool, ghost freep0: int,
                    ghost fl0: seq<Chunk>, ghost obtained0: set<int>, ghost start: nat, ghost d: nat) returns (r: int)
      requires Valid() && freep != 0 && 1 <= n && AtNode(fl, start, d, prevp, p, n)
      requires SizeOf(fl, Along(start, d, |fl|)) >= n
      requires Phase(grown, base, freep0, fl0, obtained0, brk, n, fl, obtained, start)
      modifies this`mem, this`freep, this`fl, this`live
      ensures Valid() && 0 < r && r !in old(live) && live == old(live)[r := n]
      ensures Served(base, freep0, fl0, obtained0, brk, n, freep, fl, obtained, r)
    {
      Fits(fl, start, d, n);
      ghost var fl1, k := fl, Along(start, d, |fl|);
      r := Cut(prevp, p, n, k - 1);
      Conclude(grown, base, freep0, fl0, obtained0, brk, n, fl1, obtained, start, k - 1, freep);
    }

    /** The search came full circle. */
    method AskForMore(n: nat, brk: int, ghost grown: bool, ghost freep0: int,
                      ghost fl0: seq<Chunk>, ghost obtained0: set<int>, ghost start: nat) returns (p: int)
      requires Valid() && freep != 0 && 1 <= n && start <= |fl| && NoneFits(fl, start, |fl| + 2, n)
      requires Phase(grown, base, freep0, fl0, obtained0, brk, n, fl, obtained, start)
      requires brk == -1 || (base < brk && Interval(brk, Grown(n)) !! obtained0)
      modifies this
      ensures Valid() && !grown && live == old(live)
      ensures p == 0 ==>
                && brk == -1 && !SomeFits(fl0, n)
                && fl == old(fl) == fl0 && obtained == old(obtained) == obtained0
      ensures p != 0 ==>
                && freep != 0 && p == freep && Below(fl0, brk) <= |fl| && freep == Addr(base, fl, Below(fl0, brk))
                && p in mem && AtNode(fl, Below(fl0, brk), 1, p, mem[p].ptr, n)
                && Phase(true, base, freep0, fl0, obtained0, brk, n, fl, obtained, Below(fl0, brk))
    {
      FullTurn(fl, start, n);
      p := Morecore(n, brk);
      if p != 0 {
        InsertFits(base, fl0, Chunk(brk, Grown(n)));
        StartNode(Below(fl0, brk), n);
      }
    }

    /** Allocates `nbytes` bytes; `brk` is what sbrk answers if it is asked. */
    method Malloc(nbytes: nat, brk: int) returns (r: int)
      requires Valid()
      requires brk == -1 || (base < brk && Interval(brk, Grown(Units(nbytes))) !! obtained)
      modifies this
      ensures Valid()
      ensures r == 0 ==>
                && brk == -1 && !SomeFits(old(fl), Units(nbytes))
                && fl == old(fl) && live == old(live) && obtained == old(obtained)
      ensures r != 0 ==>
                && r - 1 !in old(live) && live == old(live)[r - 1 := Units(nbytes)]
                && Served(base, old(freep), old(fl), old(obtained), brk, Units(nbytes), freep, fl, obtained, r - 1)
    {
      var nunits := Units(nbytes);
      ghost var fl0, live0, obtained0 := fl, live, obtained;
      ghost var start := Prepare(nunits);
      ghost var grown, d := false, 1;
      var prevp := freep;
      var p := mem[prevp].ptr;
      while true
        invariant Valid() && freep != 0 && live == live0
        invariant AtNode(fl, start, d, prevp, p, nunits)
        invariant Phase(grown, base, old(freep), fl0, obtained0, brk, nunits, fl, obtained, start)
        decreases !grown, |fl| + 1 - d
      {
        ghost var k := Along(start, d, |fl|);
        NodeOk(k);
        if mem[p].size >= nunits {
          r := TakeHere(prevp, p, nunits, brk, grown, old(freep), fl0, obtained0, start, d);
          return r + 1;
        }
        prevp, grown, start, d := PassBy(p, nunits, brk, grown, old(freep), fl0, obtained0, start, d);
        if prevp == 0 {
          return 0;
        }
        p := mem[prevp].ptr;
      }
    }

    /** Node `p` is too small: the search goes on behind it, or, if it has come full
        circle, behind the region that sbrk answers; 0 if it refuses. */
    method PassBy(p: int, n: nat, brk: int, ghost grown: bool, ghost freep0: int, ghost fl0: seq<Chunk>,
                  ghost obtained0: set<int>, ghost start: nat, ghost d: nat)
      returns (prevp: int, ghost grown': bool, ghost start': nat, ghost d': nat)
      requires Valid() && freep != 0 && 1 <= n && start <= |fl| && freep == Addr(base, fl, start)
      requires 1 <= d <= |fl| + 1 && NoneFits(fl, start, d, n) && p == Addr(base, fl, Along(start, d, |fl|))
      requires SizeOf(fl, Along(start, d, |fl|)) < n
      requires Phase(grown, base, freep0, fl0, obtained0, brk, n, fl, obtained, start)
      requires brk == -1 || (base < brk && Interval(brk, Grown(n)) !! obtained0)
      modifies this
      ensures Valid() && live == old(live)
      ensures prevp == 0 ==> brk == -1 && !SomeFits(fl0, n) && fl == fl0 && obtained == obtained0
      ensures prevp != 0 ==>
                && freep != 0 && prevp in mem && AtNode(fl, start', d', prevp, mem[prevp].ptr, n)
                && Phase(grown', base, freep0, fl0, obtained0, brk, n, fl, obtained, start')
                && ((grown' && !grown) || (grown' == grown && fl == old(fl) && d' == d + 1))
    {
      SameNode(base, fl, start, d);
      NoneFitsMore(fl, start, d, n);
      if p == freep {
        prevp := AskForMore(n, brk, grown, freep0, fl0, obtained0, start);
        grown', start', d' := true, Below(fl0, brk), 1;
      } else {
        StepNode(start, d, n);
        NodeOk(Along(start, d, |fl|));
        prevp, grown', start', d' := p, grown, start, d + 1;
      }
    }

    /** `p` is `d` steps past the starting node, `prevp` one step behind it, and no
        node in between fits. */
    ghost predicate AtNode(fl: seq<Chunk>, start: nat, d: nat, prevp: int, p: int, n: int)
      reads this
    {
      && start <= |fl| && freep == Addr(base, fl, start)
      && 1 <= d <= |fl| + 1 && NoneFits(fl, start, d, n)
      && prevp == Addr(base, fl, Along(start, d - 1, |fl|))
      && p == Addr(base, fl, Along(start, d, |fl|))
    }

    lemma StartNode(start: nat, n: int)
      requires Valid() && freep != 0 && start <= |fl| && freep == Addr(base, fl, start)
      ensures freep in mem && AtNode(fl, start, 1, freep, mem[freep].ptr, n)
    {
      NodeOk(start);
    }

    lemma StepNode(start: nat, d: nat, n: int)
      requires Valid() && freep != 0 && start <= |fl| && freep == Addr(base, fl, start)
      requires 1 <= d <= |fl| && NoneFits(fl, start, d + 1, n)
      ensures var p := Addr(base, fl, Along(start, d, |fl|));
              p in mem && AtNode(fl, start, d + 1, p, mem[p].ptr, n)
    {
      NodeOk(Along(start, d, |fl|));
    }

    lemma NodeOk(k: nat)
      requires Valid() && freep != 0 && k <= |fl|
      ensures Addr(base, fl, k) in mem
      ensures mem[Addr(base, fl, k)] == Header(Addr(base, fl, Next(k, |fl|)), SizeOf(fl, k))
      ensures 0 < Addr(base, fl, k)
    {
      assert LinkedAt(mem, base, fl, k);
      NodeNonzero(base, fl, k);
    }

    lemma Fits(fl: seq<Chunk>, start: nat, d: nat, n: nat)
      requires start <= |fl| && 1 <= d <= |fl| + 1 && NoneFits(fl, start, d, n) && 1 <= n
      requires SizeOf(fl, Along(start, d, |fl|)) >= n
      ensures var k := Along(start, d, |fl|);
              && 1 <= k <= |fl| && FirstFit(fl, start, k, n) && Along(start, d - 1, |fl|) == k - 1
              && SomeFits(fl, n)
    {
    }
  }
}
