/** The circular free list of the allocator as an address-ordered sequence of
    blocks.  Addresses and sizes count header-sized units. */
module FreeList {

  /** A block: its header at `a`, `n` units in all. */
  datatype Chunk = Chunk(a: int, n: int)

  /** Contents of one unit read as a header. */
  datatype Header = Header(ptr: int, size: int)

  type Memory = map<int, Header>

  ghost predicate Apart(c: Chunk, d: Chunk) {
    c.a + c.n <= d.a || d.a + d.n <= c.a
  }

  ghost predicate Holds(c: Chunk, u: int) { c.a <= u < c.a + c.n }

  /** Non-empty blocks above `lo`, ascending, no two overlapping or touching. */
  ghost predicate Gaps(lo: int, fl: seq<Chunk>)
    decreases |fl|
  {
    fl == [] || (lo < fl[0].a && 1 <= fl[0].n && Gaps(fl[0].a + fl[0].n, fl[1..]))
  }

  /** First address past the last block. */
  function End(lo: int, fl: seq<Chunk>): int {
    if fl == [] then lo else fl[|fl|-1].a + fl[|fl|-1].n
  }

  lemma {:induction false} GapsConcat(lo: int, xs: seq<Chunk>, ys: seq<Chunk>)
    ensures Gaps(lo, xs + ys) <==> Gaps(lo, xs) && Gaps(End(lo, xs), ys)
    decreases |xs|
  {
    if xs == [] {
      assert xs + ys == ys;
    } else {
      GapsConcat(xs[0].a + xs[0].n, xs[1..], ys);
      assert (xs + ys)[1..] == xs[1..] + ys;
    }
  }

  /** Order of any two blocks. */
  lemma {:induction false} GapsAt(lo: int, fl: seq<Chunk>, i: nat, j: nat)
    requires Gaps(lo, fl) && i <= j < |fl|
    ensures lo < fl[i].a && 1 <= fl[i].n
    ensures i < j ==> fl[i].a + fl[i].n < fl[j].a
    decreases |fl|
  {
    if i > 0 {
      GapsAt(fl[0].a + fl[0].n, fl[1..], i - 1, j - 1);
    } else if j > 0 {
      GapsAt(fl[0].a + fl[0].n, fl[1..], j - 1, j - 1);
    }
  }

  ghost predicate ApartFromAll(c: Chunk, fl: seq<Chunk>) {
    forall i :: 0 <= i < |fl| ==> Apart(c, fl[i])
  }

  ghost predicate InFree(fl: seq<Chunk>, u: int) {
    exists i :: 0 <= i < |fl| && Holds(fl[i], u)
  }

  // ----- the ring -----

  /** Node 0 is `base`; node `k` is the `k`-th block. */
  function Addr(base: int, fl: seq<Chunk>, k: nat): int
    requires k <= |fl|
  {
    if k == 0 then base else fl[k-1].a
  }

  function SizeOf(fl: seq<Chunk>, k: nat): int
    requires k <= |fl|
  {
    if k == 0 then 0 else fl[k-1].n
  }

  /** `d` steps along the ring of nodes 0 to `m`. */
  function Along(k: int, d: int, m: int): int {
    if k + d <= m then k + d else k + d - m - 1
  }

  function Next(k: nat, m: nat): nat { if k < m then k + 1 else 0 }

  /** The header of node `k` holds its size and points to the next node. */
  ghost predicate LinkedAt(mem: Memory, base: int, fl: seq<Chunk>, k: nat)
    requires k <= |fl|
  {
    && Addr(base, fl, k) in mem
    && mem[Addr(base, fl, k)] == Header(Addr(base, fl, Next(k, |fl|)), SizeOf(fl, k))
  }

  /** Memory holds the ring: one pass around it visits the nodes in address order. */
  ghost predicate Linked(mem: Memory, base: int, fl: seq<Chunk>) {
    forall k: nat :: k <= |fl| ==> LinkedAt(mem, base, fl, k)
  }

  // ----- inserting a block -----

  /** How many blocks lie below address `a`. */
  function Below(fl: seq<Chunk>, a: int): (k: nat)
    ensures k <= |fl|
  {
    if fl == [] || fl[0].a >= a then 0 else 1 + Below(fl[1..], a)
  }

  lemma {:induction false} BelowSplits(lo: int, fl: seq<Chunk>, a: int)
    requires Gaps(lo, fl)
    ensures var k := Below(fl, a); (k > 0 ==> fl[k-1].a < a) && (k < |fl| ==> a <= fl[k].a)
    decreases |fl|
  {
    if fl != [] && fl[0].a < a {
      BelowSplits(fl[0].a + fl[0].n, fl[1..], a);
    }
  }

  function JoinRight(c: Chunk, right: seq<Chunk>): seq<Chunk> {
    if right != [] && c.a + c.n == right[0].a then [Chunk(c.a, c.n + right[0].n)] + right[1..]
    else [c] + right
  }

  function JoinLeft(left: seq<Chunk>, right: seq<Chunk>): seq<Chunk>
    requires right != []
  {
    var m := |left| - 1;
    if left != [] && left[m].a + left[m].n == right[0].a
    then left[..m] + [Chunk(left[m].a, left[m].n + right[0].n)] + right[1..]
    else left + right
  }

  /** The list after freeing `c`: put in address order and merged with the block
      it touches on either side. */
  function Insert(fl: seq<Chunk>, c: Chunk): seq<Chunk> {
    var k := Below(fl, c.a);
    JoinLeft(fl[..k], JoinRight(c, fl[k..]))
  }

  lemma InFreeAppend(xs: seq<Chunk>, ys: seq<Chunk>, u: int)
    ensures InFree(xs + ys, u) <==> InFree(xs, u) || InFree(ys, u)
  {
    var zs := xs + ys;
    if InFree(zs, u) {
      var i :| 0 <= i < |zs| && Holds(zs[i], u);
      if i < |xs| { assert Holds(xs[i], u); } else { assert Holds(ys[i - |xs|], u); }
    }
    if InFree(xs, u) {
      var i :| 0 <= i < |xs| && Holds(xs[i], u);
      assert Holds(zs[i], u);
    }
    if InFree(ys, u) {
      var i :| 0 <= i < |ys| && Holds(ys[i], u);
      assert Holds(zs[|xs| + i], u);
    }
  }

  lemma InFreeOne(c: Chunk, u: int)
    ensures InFree([c], u) <==> Holds(c, u)
  {
    if Holds(c, u) { assert Holds([c][0], u); }
  }

  lemma InFreeParts(xs: seq<Chunk>, c: Chunk, ys: seq<Chunk>, u: int)
    ensures InFree(xs + [c] + ys, u) <==> InFree(xs, u) || Holds(c, u) || InFree(ys, u)
  {
    InFreeAppend(xs + [c], ys, u);
    InFreeAppend(xs, [c], u);
    InFreeOne(c, u);
  }

  lemma JoinRightUnits(c: Chunk, right: seq<Chunk>, u: int)
    requires 1 <= c.n && forall i :: 0 <= i < |right| ==> 1 <= right[i].n
    ensures InFree(JoinRight(c, right), u) <==> Holds(c, u) || InFree(right, u)
  {
    InFreeParts([], c, right, u);
    assert [] + [c] + right == [c] + right;
    if right != [] && c.a + c.n == right[0].a {
      var d := Chunk(c.a, c.n + right[0].n);
      InFreeParts([], d, right[1..], u);
      assert [] + [d] + right[1..] == [d] + right[1..];
      InFreeParts([], right[0], right[1..], u);
      assert [] + [right[0]] + right[1..] == right;
    }
  }

  lemma JoinLeftUnits(left: seq<Chunk>, right: seq<Chunk>, u: int)
    requires right != [] && 1 <= right[0].n && forall i :: 0 <= i < |left| ==> 1 <= left[i].n
    ensures InFree(JoinLeft(left, right), u) <==> InFree(left, u) || InFree(right, u)
  {
    InFreeAppend(left, right, u);
    var m := |left| - 1;
    if left != [] && left[m].a + left[m].n == right[0].a {
      InFreeParts(left[..m], Chunk(left[m].a, left[m].n + right[0].n), right[1..], u);
      InFreeParts(left[..m], left[m], right, u);
      assert left[..m] + [left[m]] + right == left + right;
      InFreeParts([], right[0], right[1..], u);
      assert [] + [right[0]] + right[1..] == right;
    }
  }

  /** Freeing a block adds exactly its units. */
  lemma InsertUnits(base: int, fl: seq<Chunk>, c: Chunk, u: int)
    requires Gaps(base, fl) && 1 <= c.n
    ensures InFree(Insert(fl, c), u) <==> InFree(fl, u) || Holds(c, u)
  {
    var k := Below(fl, c.a);
    Sizes(base, fl);
    var l, r := fl[..k], fl[k..];
    assert l + r == fl;
    assert InFree(fl, u) <==> InFree(l, u) || InFree(r, u) by {
      InFreeAppend(l, r, u);
    }
    JoinRightUnits(c, r, u);
    JoinLeftUnits(l, JoinRight(c, r), u);
  }

  lemma Sizes(base: int, fl: seq<Chunk>)
    requires Gaps(base, fl)
    ensures forall i :: 0 <= i < |fl| ==> base < fl[i].a && 1 <= fl[i].n
  {
    forall i | 0 <= i < |fl| ensures base < fl[i].a && 1 <= fl[i].n { GapsAt(base, fl, i, i); }
  }

  /** Freeing a block keeps the list in address order, no two blocks touching. */
  lemma InsertGaps(base: int, fl: seq<Chunk>, c: Chunk)
    requires Gaps(base, fl) && base < c.a && 1 <= c.n && ApartFromAll(c, fl)
    ensures Gaps(base, Insert(fl, c))
  {
    var k := Below(fl, c.a);
    BelowSplits(base, fl, c.a);
    var left, right := fl[..k], fl[k..];
    assert fl == left + right;
    GapsConcat(base, left, right);
    assert k > 0 ==> Apart(c, fl[k-1]);
    if k < |fl| {
      assert Apart(c, fl[k]);
      GapsAt(base, fl, k, k);
    }
    JoinLeftGaps(base, left, JoinRight(c, right));
  }

  lemma JoinLeftGaps(base: int, left: seq<Chunk>, right: seq<Chunk>)
    requires Gaps(base, left) && right != [] && 1 <= right[0].n && base < right[0].a
    requires Gaps(right[0].a + right[0].n, right[1..]) && End(base, left) <= right[0].a
    ensures Gaps(base, JoinLeft(left, right))
  {
    var m := |left| - 1;
    GapsConcat(base, left, right);
    if left != [] {
      assert left == left[..m] + [left[m]];
      GapsConcat(base, left[..m], [left[m]]);
      var c := Chunk(left[m].a, left[m].n + right[0].n);
      GapsConcat(base, left[..m], [c] + right[1..]);
      assert left[..m] + ([c] + right[1..]) == left[..m] + [c] + right[1..];
    }
  }

  // ----- taking a block -----

  /** The list after allocating `n` units from block `k`: the block leaves the list
      if it fits exactly, otherwise it keeps its lower part. */
  function Take(fl: seq<Chunk>, k: nat, n: int): seq<Chunk>
    requires k < |fl|
  {
    if fl[k].n == n then fl[..k] + fl[k+1..]
    else fl[k := Chunk(fl[k].a, fl[k].n - n)]
  }

  function Taken(fl: seq<Chunk>, k: nat, n: int): Chunk
    requires k < |fl|
  {
    Chunk(fl[k].a + fl[k].n - n, n)
  }

  lemma TakeUnits(base: int, fl: seq<Chunk>, k: nat, n: int, u: int)
    requires Gaps(base, fl) && k < |fl| && 1 <= n <= fl[k].n
    ensures InFree(fl, u) <==> InFree(Take(fl, k, n), u) || Holds(Taken(fl, k, n), u)
  {
    InFreeParts(fl[..k], fl[k], fl[k+1..], u);
    assert fl[..k] + [fl[k]] + fl[k+1..] == fl;
    InFreeAppend(fl[..k], fl[k+1..], u);
    if fl[k].n != n {
      var c := Chunk(fl[k].a, fl[k].n - n);
      InFreeParts(fl[..k], c, fl[k+1..], u);
      assert fl[..k] + [c] + fl[k+1..] == Take(fl, k, n);
    }
  }

  lemma TakeGaps(base: int, fl: seq<Chunk>, k: nat, n: int)
    requires Gaps(base, fl) && k < |fl| && 1 <= n <= fl[k].n
    ensures Gaps(base, Take(fl, k, n)) && ApartFromAll(Taken(fl, k, n), Take(fl, k, n))
  {
    var r, left, right := Take(fl, k, n), fl[..k], fl[k+1..];
    assert fl == left + ([fl[k]] + right);
    GapsConcat(base, left, [fl[k]] + right);
    assert ([fl[k]] + right)[1..] == right;
    var c := Chunk(fl[k].a, fl[k].n - n);
    if fl[k].n == n {
      GapsConcat(base, left, right);
      if right != [] { assert Gaps(fl[k].a + fl[k].n, right); }
    } else {
      assert r == left + ([c] + right);
      GapsConcat(base, left, [c] + right);
      assert ([c] + right)[1..] == right;
    }
    forall i | 0 <= i < |r| ensures Apart(Taken(fl, k, n), r[i]) {
      var j := if fl[k].n == n && i >= k then i + 1 else i;
      if j != k { assert r[i] == fl[j]; }
      if j < k { GapsAt(base, fl, j, k); } else { GapsAt(base, fl, k, j); }
    }
  }

  /** Node `k` is the first one after node `start`, in ring order, of at least `n`
      units. */
  ghost predicate FirstFit(fl: seq<Chunk>, start: nat, k: nat, n: int) {
    && start <= |fl| && 0 < k <= |fl| && SizeOf(fl, k) >= n
    && exists d :: 1 <= d <= |fl| + 1 && Along(start, d, |fl|) == k && NoneFits(fl, start, d, n)
  }

  /** None of the `d - 1` nodes after `start` has `n` units. */
  ghost predicate NoneFits(fl: seq<Chunk>, start: nat, d: int, n: int)
    requires start <= |fl|
  {
    forall e :: 1 <= e < d && 0 <= Along(start, e, |fl|) <= |fl| ==> SizeOf(fl, Along(start, e, |fl|)) < n
  }

  // ----- relinking memory -----

  /** The headers written by free: `bp` first, then its predecessor `p`. */
  function Relink(mem: Memory, p: int, bp: int): Memory
    requires p in mem && bp in mem && mem[p].ptr in mem
  {
    var q := mem[p].ptr;
    var b := if bp + mem[bp].size == q then Header(mem[q].ptr, mem[bp].size + mem[q].size)
             else Header(q, mem[bp].size);
    var f := if p + mem[p].size == bp then Header(b.ptr, mem[p].size + b.size)
             else Header(bp, mem[p].size);
    mem[bp := b][p := f]
  }

  /** What free knows when its search stops at node `k`. */
  ghost predicate InsertPoint(mem: Memory, base: int, fl: seq<Chunk>, c: Chunk, k: nat) {
    && Gaps(base, fl) && Linked(mem, base, fl)
    && base < c.a && 1 <= c.n && ApartFromAll(c, fl)
    && k == Below(fl, c.a) && c.a in mem && mem[c.a].size == c.n
  }

  lemma RelinkNodes(mem: Memory, base: int, fl: seq<Chunk>, c: Chunk, k: nat)
    requires InsertPoint(mem, base, fl, c, k)
    ensures forall j: nat :: j <= |fl| ==>
        Addr(base, fl, j) in mem && (j != k ==> Addr(base, fl, j) != Addr(base, fl, k))
    ensures forall j: nat :: j <= |fl| ==> Addr(base, fl, j) != c.a
    ensures k < |fl| <==> c.a < Addr(base, fl, Next(k, |fl|))
    ensures Addr(base, fl, k) < c.a
  {
    BelowSplits(base, fl, c.a);
    Sizes(base, fl);
    if k < |fl| { assert Apart(c, fl[k]); }
    forall j: nat | j <= |fl|
      ensures Addr(base, fl, j) in mem
    {
      assert LinkedAt(mem, base, fl, j);
    }
    forall j: nat | j <= |fl|
      ensures Addr(base, fl, j) != c.a && (j != k ==> Addr(base, fl, j) != Addr(base, fl, k))
    {
      if j > 0 {
        assert Apart(c, fl[j-1]);
        if j < k { GapsAt(base, fl, j - 1, k - 1); }
        if k > 0 && k < j { GapsAt(base, fl, k - 1, j - 1); }
      }
    }
    if k < |fl| { GapsAt(base, fl, k, k); }
  }

  ghost predicate TouchesRight(fl: seq<Chunk>, c: Chunk, k: nat) {
    k < |fl| && c.a + c.n == fl[k].a
  }

  ghost predicate TouchesLeft(fl: seq<Chunk>, c: Chunk, k: nat) {
    0 < k <= |fl| && fl[k-1].a + fl[k-1].n == c.a
  }

  lemma InsertCases(base: int, fl: seq<Chunk>, c: Chunk)
    requires Gaps(base, fl)
    ensures var k := Below(fl, c.a);
            Insert(fl, c) ==
              (if TouchesLeft(fl, c, k) && TouchesRight(fl, c, k)
               then fl[..k-1] + [Chunk(fl[k-1].a, fl[k-1].n + c.n + fl[k].n)] + fl[k+1..]
               else if TouchesLeft(fl, c, k) then fl[..k-1] + [Chunk(fl[k-1].a, fl[k-1].n + c.n)] + fl[k..]
               else if TouchesRight(fl, c, k) then fl[..k] + [Chunk(c.a, c.n + fl[k].n)] + fl[k+1..]
               else fl[..k] + [c] + fl[k..])
  {
    var k := Below(fl, c.a);
    var left, right := fl[..k], fl[k..];
    var r := JoinRight(c, right);
    if TouchesRight(fl, c, k) {
      assert right[1..] == fl[k+1..];
      assert r[1..] == fl[k+1..];
    } else {
      assert r[1..] == right;
    }
    if k > 0 {
      assert left[..k-1] == fl[..k-1];
    }
  }

  /** Nodes of a list in which `x` replaces the blocks from `i` up to `j`. */
  lemma SpliceNodes(base: int, fl: seq<Chunk>, i: nat, x: Chunk, j: nat, n: nat)
    requires i <= j <= |fl| && n <= i + 1 + |fl| - j
    ensures var r := fl[..i] + [x] + fl[j..];
            && |r| == i + 1 + |fl| - j
            && Addr(base, r, n) == (if n <= i then Addr(base, fl, n)
                                    else if n == i + 1 then x.a else Addr(base, fl, n - i - 1 + j))
            && SizeOf(r, n) == (if n <= i then SizeOf(fl, n) else if n == i + 1 then x.n else SizeOf(fl, n - i - 1 + j))
  {
  }

  /** The node reached by one step along the ring of the spliced list. */
  lemma SpliceNode(mem': Memory, base: int, fl: seq<Chunk>, i: nat, x: Chunk, j: nat, n: nat)
    requires i <= j <= |fl| && n <= i + 1 + |fl| - j
    requires x.a in mem' && mem'[x.a] == Header(Addr(base, fl, Next(j, |fl|)), x.n)
    requires n == i ==> Addr(base, fl, i) in mem' && mem'[Addr(base, fl, i)] == Header(x.a, SizeOf(fl, i))
    requires n < i ==> LinkedAt(mem', base, fl, n)
    requires n > i + 1 ==> LinkedAt(mem', base, fl, n - i - 1 + j)
    ensures var r := fl[..i] + [x] + fl[j..]; LinkedAt(mem', base, r, n)
  {
    var r := fl[..i] + [x] + fl[j..];
    SpliceNodes(base, fl, i, x, j, n);
    SpliceNodes(base, fl, i, x, j, Next(n, |r|));
    if n > i + 1 {
      assert Next(n, |r|) == 0 || Next(n, |r|) - i - 1 + j == Next(n - i - 1 + j, |fl|);
    }
  }

  function SpliceFrom(fl: seq<Chunk>, c: Chunk, k: nat): nat
    requires k <= |fl|
  {
    if k > 0 && fl[k-1].a + fl[k-1].n == c.a then k - 1 else k
  }

  function SpliceTo(fl: seq<Chunk>, c: Chunk, k: nat): nat
    requires k <= |fl|
  {
    if k < |fl| && c.a + c.n == fl[k].a then k + 1 else k
  }

  /** The merged block. */
  function Merged(fl: seq<Chunk>, c: Chunk, k: nat): Chunk
    requires k <= |fl|
  {
    var n := c.n + (if SpliceTo(fl, c, k) > k then fl[k].n else 0);
    if SpliceFrom(fl, c, k) < k then Chunk(fl[k-1].a, fl[k-1].n + n) else Chunk(c.a, n)
  }

  lemma InsertIsSplice(base: int, fl: seq<Chunk>, c: Chunk)
    requires Gaps(base, fl)
    ensures var k := Below(fl, c.a);
            Insert(fl, c) == fl[..SpliceFrom(fl, c, k)] + [Merged(fl, c, k)] + fl[SpliceTo(fl, c, k)..]
  {
    InsertCases(base, fl, c);
  }

  /** Exactly two headers change: the merged block's and, without a left merge, the
      predecessor's pointer. */
  lemma RelinkHeaders(mem: Memory, base: int, fl: seq<Chunk>, c: Chunk, k: nat)
    requires InsertPoint(mem, base, fl, c, k)
    ensures Addr(base, fl, k) in mem && mem[Addr(base, fl, k)].ptr in mem
    ensures var mem' := Relink(mem, Addr(base, fl, k), c.a);
            var x, i, j := Merged(fl, c, k), SpliceFrom(fl, c, k), SpliceTo(fl, c, k);
            && mem'.Keys == mem.Keys
            && x.a in mem' && mem'[x.a] == Header(Addr(base, fl, Next(j, |fl|)), x.n)
            && (i == k ==> mem'[Addr(base, fl, k)] == Header(c.a, SizeOf(fl, k)))
            && forall b :: b in mem && b != c.a && b != Addr(base, fl, k) ==> mem'[b] == mem[b]
  {
    RelinkNodes(mem, base, fl, c, k);
    assert LinkedAt(mem, base, fl, k) && LinkedAt(mem, base, fl, Next(k, |fl|));
    if k > 0 { assert LinkedAt(mem, base, fl, k - 1); }
  }

  lemma RelinkNode(mem: Memory, base: int, fl: seq<Chunk>, c: Chunk, k: nat, n: nat)
    requires InsertPoint(mem, base, fl, c, k)
    requires Addr(base, fl, k) in mem && mem[Addr(base, fl, k)].ptr in mem
    requires n <= SpliceFrom(fl, c, k) + 1 + |fl| - SpliceTo(fl, c, k)
    ensures var mem' := Relink(mem, Addr(base, fl, k), c.a);
            var r := fl[..SpliceFrom(fl, c, k)] + [Merged(fl, c, k)] + fl[SpliceTo(fl, c, k)..];
            LinkedAt(mem', base, r, n)
  {
    RelinkHeaders(mem, base, fl, c, k);
    RelinkNodes(mem, base, fl, c, k);
    var mem' := Relink(mem, Addr(base, fl, k), c.a);
    var x, i, j := Merged(fl, c, k), SpliceFrom(fl, c, k), SpliceTo(fl, c, k);
    assert LinkedAt(mem, base, fl, i);
    if n < i { assert LinkedAt(mem, base, fl, n); }
    if n > i + 1 { assert LinkedAt(mem, base, fl, n - i - 1 + j); }
    SpliceNode(mem', base, fl, i, x, j, n);
  }

  /** After free has relinked memory, the ring is that of the new list. */
  lemma RelinkInserts(mem: Memory, base: int, fl: seq<Chunk>, c: Chunk, k: nat)
    requires InsertPoint(mem, base, fl, c, k)
    ensures Addr(base, fl, k) in mem && mem[Addr(base, fl, k)].ptr in mem
    ensures Linked(Relink(mem, Addr(base, fl, k), c.a), base, Insert(fl, c))
    ensures |Insert(fl, c)| >= k && Addr(base, Insert(fl, c), k) == Addr(base, fl, k)
  {
    RelinkHeaders(mem, base, fl, c, k);
    InsertIsSplice(base, fl, c);
    var i, j := SpliceFrom(fl, c, k), SpliceTo(fl, c, k);
    SpliceNodes(base, fl, i, Merged(fl, c, k), j, k);
    forall n: nat | n <= |Insert(fl, c)|
      ensures LinkedAt(Relink(mem, Addr(base, fl, k), c.a), base, Insert(fl, c), n)
    {
      RelinkNode(mem, base, fl, c, k, n);
    }
  }

  lemma DistinctNodes(base: int, fl: seq<Chunk>, i: nat, j: nat)
    requires Gaps(base, fl) && i < j <= |fl|
    ensures Addr(base, fl, i) + SizeOf(fl, i) < Addr(base, fl, j) && 0 <= SizeOf(fl, i)
  {
    if i > 0 { GapsAt(base, fl, i - 1, j - 1); } else { GapsAt(base, fl, j - 1, j - 1); }
  }

  lemma DropNodes(base: int, fl: seq<Chunk>, k: nat, n: nat)
    requires k < |fl| && n < |fl|
    ensures var r, m := fl[..k] + fl[k+1..], if n <= k then n else n + 1;
            Addr(base, r, n) == Addr(base, fl, m) && SizeOf(r, n) == SizeOf(fl, m)
  {
    var r := fl[..k] + fl[k+1..];
    if n > k {
      assert r[n-1] == fl[k+1..][n-1-k] == fl[n];
    }
  }

  lemma UnlinkNode(mem: Memory, base: int, fl: seq<Chunk>, k: nat, n: nat)
    requires Gaps(base, fl) && Linked(mem, base, fl) && k < |fl| && n < |fl|
    ensures var q, r := Addr(base, fl, k), fl[..k] + fl[k+1..];
            && q in mem && fl[k].a in mem
            && var mem' := mem[q := Header(mem[fl[k].a].ptr, mem[q].size)]; LinkedAt(mem', base, r, n)
  {
    var r := fl[..k] + fl[k+1..];
    var m := if n <= k then n else n + 1;
    DropNodes(base, fl, k, n);
    var q := Addr(base, fl, k);
    assert LinkedAt(mem, base, fl, k) && LinkedAt(mem, base, fl, k + 1) && LinkedAt(mem, base, fl, m);
    if m < k { DistinctNodes(base, fl, m, k); } else if k < m { DistinctNodes(base, fl, k, m); }
    var n' := Next(n, |r|);
    DropNodes(base, fl, k, n');
  }

  /** Unlinking node `k + 1` from its predecessor takes it whole. */
  lemma UnlinkTakes(mem: Memory, base: int, fl: seq<Chunk>, k: nat)
    requires Gaps(base, fl) && Linked(mem, base, fl) && k < |fl|
    ensures var q := Addr(base, fl, k);
            && q in mem && fl[k].a in mem
            && Linked(mem[q := Header(mem[fl[k].a].ptr, mem[q].size)], base, fl[..k] + fl[k+1..])
  {
    var q, r := Addr(base, fl, k), fl[..k] + fl[k+1..];
    UnlinkNode(mem, base, fl, k, 0);
    var mem' := mem[q := Header(mem[fl[k].a].ptr, mem[q].size)];
    forall n: nat | n <= |r|
      ensures LinkedAt(mem', base, r, n)
    {
      UnlinkNode(mem, base, fl, k, n);
    }
  }

  lemma CarveNode(mem: Memory, base: int, fl: seq<Chunk>, k: nat, n: int, h: Header, m: nat)
    requires Gaps(base, fl) && Linked(mem, base, fl) && k < |fl| && 1 <= n < fl[k].n && m <= |fl|
    ensures fl[k].a in mem
    ensures var r := fl[k := Chunk(fl[k].a, fl[k].n - n)];
            var mem' := mem[fl[k].a := Header(mem[fl[k].a].ptr, fl[k].n - n)][fl[k].a + fl[k].n - n := h];
            LinkedAt(mem', base, r, m)
  {
    assert LinkedAt(mem, base, fl, k + 1) && LinkedAt(mem, base, fl, m);
    var r := fl[k := Chunk(fl[k].a, fl[k].n - n)];
    assert Addr(base, r, m) == Addr(base, fl, m) && Addr(base, r, Next(m, |r|)) == Addr(base, fl, Next(m, |r|));
    if m < k + 1 { DistinctNodes(base, fl, m, k + 1); } else if k + 1 < m { DistinctNodes(base, fl, k + 1, m); }
  }

  /** Carving the upper part off node `k + 1` leaves the lower part in the ring. */
  lemma CarveTakes(mem: Memory, base: int, fl: seq<Chunk>, k: nat, n: int, h: Header)
    requires Gaps(base, fl) && Linked(mem, base, fl) && k < |fl| && 1 <= n < fl[k].n
    ensures fl[k].a in mem
    ensures Linked(mem[fl[k].a := Header(mem[fl[k].a].ptr, fl[k].n - n)][fl[k].a + fl[k].n - n := h],
                   base, fl[k := Chunk(fl[k].a, fl[k].n - n)])
  {
    CarveNode(mem, base, fl, k, n, h, 0);
    var r := fl[k := Chunk(fl[k].a, fl[k].n - n)];
    var mem' := mem[fl[k].a := Header(mem[fl[k].a].ptr, fl[k].n - n)][fl[k].a + fl[k].n - n := h];
    forall m: nat | m <= |r|
      ensures LinkedAt(mem', base, r, m)
    {
      CarveNode(mem, base, fl, k, n, h, m);
    }
  }
}
