/** kalloc, kfree, and the operations on page tables. */
module Vm {
  import opened Frames
  import opened Numbers

  const KERNBASE := KERNPAGES * PGSIZE
  const UINT := 0x1_0000_0000
  const PTE_W := 2
  const PTE_U := 4

  /** A run of kernel virtual memory mapped to consecutive physical memory. */
  datatype Region = Region(virt: int, start: int, end: int, perm: int)

  datatype MapResult = Mapped | NoMemory | Remap     // 0, -1, panic

  function RoundUp(a: int): int { (a + PGSIZE - 1) / PGSIZE * PGSIZE }

  // ----- what the operations promise -----

  /** The words of frames in use in both states are the same, but for directory `d`
      and its tables. */
  ghost predicate Kept(s0: State, s: State, d: int) {
    && Inv(s0) && Inv(s) && s.first == s0.first && s.limit == s0.limit
    && forall f :: f in s0.use && f in s.use && f != d && !(s0.use[f].Table? && s0.use[f].d == d) ==>
         f in s0.mem && f in s.mem && s.mem[f] == s0.mem[f]
  }

  /** At most tables have been added to `d`, and no entry has changed. */
  ghost predicate Walked(s0: State, s: State, d: int) {
    && Kept(s0, s, d) && IsDir(s0, d) && IsDir(s, d)
    && (forall vq :: 0 <= vq < PAGES ==> Entry(s.mem, d, vq) == Entry(s0.mem, d, vq))
    && (forall f :: f in s0.use ==> f in s.use && s.use[f] == s0.use[f])
    && (forall f :: f in s.use && f !in s0.use ==> s.use[f].Table? && s.use[f].d == d)
  }

  /** `k` pages of `d` from `vp` on are mapped to physical memory from `pa` on, and no
      other entry has changed; user pages own their frames. */
  ghost predicate MappedTo(s0: State, s: State, d: int, vp: int, k: int, pa: int, perm: int) {
    && Kept(s0, s, d) && IsDir(s0, d) && IsDir(s, d)
    && EntriesTo(s0.mem, s.mem, d, vp, k, pa, perm) && UsesTo(s0.use, s.use, d, vp, k, pa)
  }

  ghost predicate EntriesTo(m0: map<int, Page>, m: map<int, Page>, d: int, vp: int, k: int, pa: int, perm: int) {
    forall vq :: 0 <= vq < PAGES ==>
      Entry(m, d, vq) == if vp <= vq < vp + k then Pte(pa + (vq - vp) * PGSIZE, perm) else Entry(m0, d, vq)
  }

  ghost predicate UsesTo(u0: map<int, Use>, u: map<int, Use>, d: int, vp: int, k: int, pa: int) {
    && (forall f :: f in u0 ==> f in u && u[f] == UseTo(u0[f], f, d, vp, k, pa))
    && (forall f :: f in u && f !in u0 ==> u[f].Table? && u[f].d == d)
  }

  function UseTo(u: Use, f: int, d: int, vp: int, k: int, pa: int): Use {
    if vp < KERNPAGES && Frame(pa) <= f < Frame(pa) + k then User(d, vp + f - Frame(pa)) else u
  }

  /** `n` pages of `d` from `vp` on are not mapped. */
  ghost predicate Absent(m: map<int, Page>, d: int, vp: int, n: int) {
    forall v :: 0 <= v < PAGES && vp <= v < vp + n ==> !Present(Entry(m, d, v))
  }

  lemma OneMore(m: map<int, Page>, d: int, vp: int, k: nat, q: int)
    requires 0 <= vp && q == vp + k < PAGES && Absent(m, d, vp, k)
    ensures Absent(m, d, vp, k + 1) <==> !Present(Entry(m, d, q))
  {
  }

  lemma FewerAbsent(m: map<int, Page>, d: int, vp: int, k: int, n: int)
    requires k <= n && Absent(m, d, vp, n)
    ensures Absent(m, d, vp, k)
  {
  }

  /** The frames a user mapping takes over are in hand. */
  ghost predicate InHand(s: State, vp: int, n: int, pa: int) {
    vp < KERNPAGES ==>
      vp + n <= KERNPAGES && forall f :: Frame(pa) <= f < Frame(pa) + n ==> f in s.use && s.use[f] == Kernel
  }

  lemma MappedWalked(s0: State, s: State, w: State, d: int, vp: int, k: int, pa: int, perm: int)
    requires MappedTo(s0, s, d, vp, k, pa, perm) && Walked(s, w, d)
    ensures MappedTo(s0, w, d, vp, k, pa, perm)
  {
  }

  lemma UseOne(u0: map<int, Use>, u: map<int, Use>, v: map<int, Use>, d: int, vp: int, k: int, pa: int, q: int, f: int)
    requires UsesTo(u0, u, d, vp, k, pa) && 0 <= k && q == vp + k && f == Frame(pa) + k
    requires vp < KERNPAGES <==> q < KERNPAGES
    requires q < KERNPAGES ==> f in u0
    requires v == if q < KERNPAGES then u[f := User(d, q)] else u
    ensures UsesTo(u0, v, d, vp, k + 1, pa)
  {
  }

  /** One more page: entry `q` of table `p` is written. */
  lemma MapOne(s0: State, w: State, t: State, d: int, vp: int, k: int, n: int, pa: int, perm: int, p: int, q: int,
               pk: int)
    requires MappedTo(s0, w, d, vp, k, pa, perm)
    requires 0 <= vp && 0 <= k < n && vp + n <= PAGES && InHand(s0, vp, n, pa)
    requires pa % PGSIZE == 0 && 0 <= perm < PGSIZE && q == vp + k && pk == pa + k * PGSIZE
    requires TableOk(w, d, q / NPT) && Present(w.mem[d][q / NPT]) && p == Frame(w.mem[d][q / NPT])
    requires !Present(Entry(s0.mem, d, q))
    requires p in w.mem && |w.mem[p]| == NPT
    requires t == w.(mem := w.mem[p := w.mem[p][q % NPT := Pte(pk, perm)]],
                     use := if q < KERNPAGES then w.use[Frame(pk) := User(d, q)] else w.use)
    ensures MappedTo(s0, t, d, vp, k + 1, pa, perm)
  {
    assert Frame(pk) == Frame(pa) + k;
    assert q < KERNPAGES ==> Frame(pk) in s0.use && s0.use[Frame(pk)] == Kernel && w.use[Frame(pk)] == Kernel;
    assert UsesTo(s0.use, t.use, d, vp, k + 1, pa) by {
      UseOne(s0.use, w.use, t.use, d, vp, k, pa, q, Frame(pk));
    }
    assert Present(Pte(pk, perm)) && Frame(Pte(pk, perm)) == Frame(pk) by { PteFields(pk, perm); }
    EntrySet(w, t, d, q, Pte(pk, perm));
    assert p in s0.use ==> s0.use[p].Table? && s0.use[p].d == d;
  }

  /** Nothing has been gained, lost or overwritten. */
  ghost predicate Restored(s0: State, s: State) {
    && Inv(s) && s.first == s0.first && s.limit == s0.limit && s.use == s0.use
    && forall f :: f in s0.use ==> f in s.mem && f in s0.mem && s.mem[f] == s0.mem[f]
  }

  // ----- taking pages away -----

  /** The pages of `d` from `lo` up to `hi` are gone and their frames are free; nothing
      else has changed. */
  ghost predicate Cleared(s0: State, s: State, d: int, lo: int, hi: int) {
    && Kept(s0, s, d) && IsDir(s0, d) && IsDir(s, d)
    && EntriesCleared(s0.mem, s.mem, d, lo, hi) && UsesCleared(s0.use, s.use, d, lo, hi)
  }

  ghost predicate EntriesCleared(m0: map<int, Page>, m: map<int, Page>, d: int, lo: int, hi: int) {
    forall vp :: 0 <= vp < PAGES ==>
      Entry(m, d, vp) == if lo <= vp < hi && Present(Entry(m0, d, vp)) then 0 else Entry(m0, d, vp)
  }

  ghost predicate UsesCleared(u0: map<int, Use>, u: map<int, Use>, d: int, lo: int, hi: int) {
    && (forall f :: f in u <==> f in u0 && !InRange(u0[f], d, lo, hi))
    && (forall f :: f in u ==> f in u0 && u[f] == u0[f])
  }

  ghost predicate InRange(u: Use, d: int, lo: int, hi: int) { u.User? && u.d == d && lo <= u.vp < hi }

  /** Passing over absent pages, one or a whole table of them. */
  lemma ClearNone(s0: State, s: State, d: int, lo: int, a: int, b: int)
    requires 0 <= lo <= a <= b <= KERNPAGES && Cleared(s0, s, d, lo, a)
    requires forall vp :: a <= vp < b ==> !Present(Entry(s.mem, d, vp))
    ensures Cleared(s0, s, d, lo, b)
  {
    forall f | f in s0.use ensures InRange(s0.use[f], d, lo, b) <==> InRange(s0.use[f], d, lo, a) {
      assert UseOk(s0, f);
      if InRange(s0.use[f], d, a, b) { assert Entry(s.mem, d, s0.use[f].vp) == Entry(s0.mem, d, s0.use[f].vp); }
    }
  }

  lemma ClearTable(s0: State, s: State, d: int, lo: int, a: int, b: int)
    requires 0 <= lo <= a <= b <= KERNPAGES && a < PAGES && b <= (a / NPT + 1) * NPT && Cleared(s0, s, d, lo, a)
    requires TableOk(s, d, a / NPT) && !Present(s.mem[d][a / NPT])
    ensures Cleared(s0, s, d, lo, b)
  {
    forall vp | a <= vp < b ensures !Present(Entry(s.mem, d, vp)) { assert vp / NPT == a / NPT; }
    ClearNone(s0, s, d, lo, a, b);
  }

  lemma ClearOne(s0: State, s: State, t: State, d: int, lo: int, vp: int, hi: int, p: int)
    requires hi == vp + 1 && 0 <= lo <= vp < KERNPAGES && Cleared(s0, s, d, lo, vp) && Present(Entry(s.mem, d, vp))
    requires TableOk(s, d, vp / NPT) && Present(s.mem[d][vp / NPT]) && p == Frame(s.mem[d][vp / NPT])
    requires var f := Frame(Entry(s.mem, d, vp));
             && f in s.use && p in Given(s, f).mem && |Given(s, f).mem[p]| == NPT
             && t == Given(s, f).(mem := Given(s, f).mem[p := Given(s, f).mem[p][vp % NPT := 0]])
    ensures Cleared(s0, t, d, lo, hi)
  {
    var f := Frame(Entry(s.mem, d, vp));
    assert PageOk(s, d, vp);
    EntryCleared(s, t, d, vp);
    forall g | g in s0.use && s0.use[g] == User(d, vp) ensures g == f { assert UseOk(s0, g); }
    assert EntriesCleared(s0.mem, t.mem, d, lo, vp + 1);
    assert UsesCleared(s0.use, t.use, d, lo, vp + 1);
  }

  /** Directory `d` and all that belongs to it are free; nothing else has changed. */
  ghost predicate Freed(s0: State, s: State, d: int) {
    && Inv(s0) && Inv(s) && s.first == s0.first && s.limit == s0.limit
    && (forall f :: f in s.use <==> f in s0.use && !InTree(s0.use[f], f, d))
    && (forall f :: f in s.use ==>
          f in s0.use && s.use[f] == s0.use[f] && f in s0.mem && f in s.mem && s.mem[f] == s0.mem[f])
  }

  /** `d` has come apart and its first `i` tables are free. */
  ghost predicate Freeing(s0: State, s: State, d: int, i: int) {
    && Inv(s) && s.first == s0.first && s.limit == s0.limit
    && (forall f :: f in s.use <==> f in s0.use && !(s0.use[f].Table? && s0.use[f].d == d && s0.use[f].i < i))
    && (forall f :: f in s.use ==> f in s0.use && s.use[f] == if InTree(s0.use[f], f, d) then Kernel else s0.use[f])
    && (forall f :: f in s.use ==> f in s0.mem && f in s.mem && s.mem[f] == s0.mem[f])
  }

  lemma FreeingStarts(s: State, t: State, d: int)
    requires Inv(s) && IsDir(s, d) && forall vp :: 0 <= vp < KERNPAGES ==> !Present(Entry(s.mem, d, vp))
    requires t == s.(use := map f | f in s.use :: if InTree(s.use[f], f, d) then Kernel else s.use[f])
    ensures Freeing(s, t, d, 0)
  {
    Dismantle(s, t, d);
    forall f | f in s.use && s.use[f].Table? ensures s.use[f].i >= 0 { assert UseOk(s, f); }
  }

  lemma FreeingNext(s0: State, s: State, d: int, i: int)
    requires Inv(s0) && IsDir(s0, d) && 0 <= i < NPT && Freeing(s0, s, d, i)
    ensures d in s.mem && s.mem[d] == s0.mem[d] && |s.mem[d]| == NPT
    ensures var w := s.mem[d][i];
            if Present(w) then Frame(w) in s.use && Freeing(s0, Given(s, Frame(w)), d, i + 1)
            else Freeing(s0, s, d, i + 1)
  {
    assert TableOk(s0, d, i) && d in s.use;
    var w := s.mem[d][i];
    forall f | f in s0.use && s0.use[f] == Table(d, i) ensures Present(w) && f == Frame(w) { assert UseOk(s0, f); }
    if Present(w) { GiveKeeps(s, Frame(w)); }
  }

  lemma FreeingEnds(s0: State, s1: State, s: State, t: State, d: int)
    requires Cleared(s0, s1, d, 0, KERNPAGES) && Freeing(s1, s, d, NPT) && d in s.use && t == Given(s, d)
    ensures Freed(s0, t, d)
  {
    forall f | f in s1.use ensures InTree(s1.use[f], f, d) <==>
        f == d || (s1.use[f].Table? && s1.use[f].d == d && s1.use[f].i < NPT)
    {
      assert UseOk(s1, f);
    }
    GiveKeeps(s, d);
  }

  // ----- new directories -----

  /** `d` is a new directory; all that was in use before is untouched, and all that is
      new belongs to `d` or is in `hand`. */
  ghost predicate Newborn(s0: State, s: State, d: int, hand: set<int>) {
    && Inv(s0) && Inv(s) && s.first == s0.first && s.limit == s0.limit
    && d !in s0.use && IsDir(s, d)
    && (forall f :: f in s0.use ==> f in s.use && s.use[f] == s0.use[f])
    && (forall f :: f in s0.use ==> f in s0.mem && f in s.mem && s.mem[f] == s0.mem[f])
    && (forall f :: f in s.use && f !in s0.use ==> if f in hand then s.use[f] == Kernel else InTree(s.use[f], f, d))
    && (forall f :: f in hand ==> f in s.use && f !in s0.use)
  }

  lemma NewbornMapped(s0: State, s: State, t: State, d: int, hand: set<int>, vp: int, k: int, pa: int, perm: int)
    requires Newborn(s0, s, d, hand) && MappedTo(s, t, d, vp, k, pa, perm) && 0 <= k
    requires if vp < KERNPAGES then hand == {Frame(pa)} && k <= 1 else hand == {}
    ensures Newborn(s0, t, d, if k > 0 then {} else hand)
  {
    forall f | f in s0.use ensures f in t.use && t.use[f] == s0.use[f] && f in t.mem && t.mem[f] == s0.mem[f] {
      assert UseOk(s0, f);
    }
    forall f | f in t.use && f !in s0.use
      ensures if k <= 0 && f in hand then t.use[f] == Kernel else InTree(t.use[f], f, d)
    {
      if f in s.use { assert t.use[f] == UseTo(s.use[f], f, d, vp, k, pa); }
    }
  }

  lemma NewbornFreed(s0: State, s: State, t: State, d: int)
    requires Newborn(s0, s, d, {}) && Freed(s, t, d)
    ensures Restored(s0, t)
  {
    forall f | f in s0.use ensures f in t.use && t.use[f] == s0.use[f] { assert UseOk(s0, f); }
    forall f | f in t.use ensures f in s0.use { assert f in s.use && !InTree(s.use[f], f, d); }
    assert t.use.Keys == s0.use.Keys;
    assert t.use == s0.use;
  }

  /** A free frame is taken and filled. */
  ghost predicate Took(s: State, t: State, f: int) {
    && Inv(s) && Inv(t) && t.first == s.first && t.limit == s.limit && f !in s.use
    && f in t.mem && |t.mem[f]| == NPT && t.mem == s.mem[f := t.mem[f]] && t.use == s.use[f := Kernel]
    && (forall d, vp :: IsDir(s, d) && 0 <= vp < PAGES ==> Entry(t.mem, d, vp) == Entry(s.mem, d, vp))
  }

  /** A frame in hand goes back. */
  lemma NewbornGive(s0: State, s: State, t: State, d: int, f: int)
    requires Newborn(s0, s, d, {f}) && t == Given(s, f)
    ensures Newborn(s0, t, d, {})
  {
    GiveKeeps(s, f);
  }

  // ----- the kernel's mappings -----

  function Size(r: Region): int { (r.end - r.start) % UINT }
  function First(r: Region): int { r.virt / PGSIZE }
  function Count(r: Region): int { PagesIn(r.virt, Size(r)) }
  predicate Inside(r: Region, vp: int) { First(r) <= vp < First(r) + Count(r) }

  ghost predicate RegionOk(r: Region) {
    && 0 < Size(r) && KERNBASE <= r.virt && r.virt + Size(r) <= UINT
    && 0 <= r.start && r.start % PGSIZE == 0 && 0 <= r.perm < PGSIZE
  }

  /** Kernel mappings lie above KERNBASE and do not overlap. */
  ghost predicate KmapOk(kmap: seq<Region>) {
    && (forall j :: 0 <= j < |kmap| ==> RegionOk(kmap[j]))
    && (forall j, k, vp :: 0 <= j < k < |kmap| && Inside(kmap[j], vp) ==> !Inside(kmap[k], vp))
  }

  /** The entry every directory has for page `vp` of the kernel. */
  function KernEntry(kmap: seq<Region>, vp: int): int {
    if kmap == [] then 0
    else
      var r := kmap[|kmap| - 1];
      if Inside(r, vp) then Pte(r.start + (vp - First(r)) * PGSIZE, r.perm)
      else KernEntry(kmap[..|kmap| - 1], vp)
  }

  lemma {:induction false} KernAbsent(kmap: seq<Region>, vp: int)
    requires forall j :: 0 <= j < |kmap| ==> !Inside(kmap[j], vp)
    ensures KernEntry(kmap, vp) == 0
  {
    if kmap != [] { KernAbsent(kmap[..|kmap| - 1], vp); }
  }

  ghost predicate KernelOnly(m: map<int, Page>, d: int, kmap: seq<Region>) {
    forall vp :: 0 <= vp < PAGES ==> Entry(m, d, vp) == KernEntry(kmap, vp)
  }

  lemma RegionMapped(m0: map<int, Page>, m: map<int, Page>, d: int, kmap: seq<Region>, j: int)
    requires 0 <= j < |kmap| && KernelOnly(m0, d, kmap[..j])
    requires EntriesTo(m0, m, d, First(kmap[j]), Count(kmap[j]), kmap[j].start, kmap[j].perm)
    ensures KernelOnly(m, d, kmap[..j + 1])
  {
    assert kmap[..j + 1][..j] == kmap[..j];
  }

  lemma NoRemap(m: map<int, Page>, d: int, kmap: seq<Region>, j: int)
    requires KmapOk(kmap) && 0 <= j < |kmap| && KernelOnly(m, d, kmap[..j])
    ensures Absent(m, d, First(kmap[j]), Count(kmap[j]))
  {
    forall vp | 0 <= vp < PAGES && Inside(kmap[j], vp) ensures !Present(Entry(m, d, vp)) {
      KernAbsent(kmap[..j], vp);
    }
  }

  lemma UserAbsent(kmap: seq<Region>, vp: int)
    requires KmapOk(kmap) && vp < KERNPAGES
    ensures KernEntry(kmap, vp) == 0
  {
    forall j | 0 <= j < |kmap| ensures !Inside(kmap[j], vp) { assert RegionOk(kmap[j]); }
    KernAbsent(kmap, vp);
  }

  // ----- growing -----

  /** Directory `d` has gained pages `lo` up to `hi`: zeroed, writable by the user, on
      frames that were free.  Frames in `hand` are new too; the rest is untouched. */
  ghost predicate Grown(s0: State, s: State, d: int, lo: int, hi: int, hand: set<int>) {
    && Kept(s0, s, d) && IsDir(s0, d) && IsDir(s, d)
    && (forall vp {:trigger NewPage(s0, s, d, vp)} :: 0 <= vp < PAGES && lo <= vp < hi ==> NewPage(s0, s, d, vp))
    && (forall vp :: 0 <= vp < PAGES && !(lo <= vp < hi) ==> Entry(s.mem, d, vp) == Entry(s0.mem, d, vp))
    && (forall f :: f in s0.use ==> f in s.use && s.use[f] == s0.use[f])
    && (forall f :: f in s.use && f !in s0.use ==>
          if f in hand then s.use[f] == Kernel
          else (s.use[f].Table? && s.use[f].d == d) || InRange(s.use[f], d, lo, hi))
    && (forall f :: f in hand ==> f in s.use && f !in s0.use)
  }

  ghost predicate NewPage(s0: State, s: State, d: int, vp: int)
    requires 0 <= vp < PAGES
  {
    var w := Entry(s.mem, d, vp);
    && Present(w) && Flags(w) == PTE_W + PTE_U + 1
    && Frame(w) in s.use && Frame(w) !in s0.use && s.use[Frame(w)] == User(d, vp)
    && Frame(w) in s.mem && s.mem[Frame(w)] == Zeros()
  }

  lemma GrowTake(s0: State, s: State, t: State, d: int, lo: int, vp: int, f: int)
    requires Grown(s0, s, d, lo, vp, {}) && Took(s, t, f)
    ensures Grown(s0, t, d, lo, vp, {f})
  {
    forall v | 0 <= v < PAGES && lo <= v < vp ensures NewPage(s0, t, d, v) { assert NewPage(s0, s, d, v); }
  }

  lemma GrowMap(s0: State, s: State, t: State, d: int, lo: int, vp: int, f: int, k: int, hand: set<int>)
    requires Grown(s0, s, d, lo, vp, {f}) && f in s.mem && s.mem[f] == Zeros()
    requires 0 <= lo <= vp < KERNPAGES && 0 <= k <= 1 && MappedTo(s, t, d, vp, k, f * PGSIZE, PTE_W + PTE_U)
    requires hand == if k == 1 then {} else {f}
    ensures Grown(s0, t, d, lo, vp + k, hand)
  {
    PteFields(f * PGSIZE, PTE_W + PTE_U);
    assert Frame(f * PGSIZE) == f && Flags(Pte(f * PGSIZE, PTE_W + PTE_U)) == PTE_W + PTE_U + 1;
    forall v | 0 <= v < PAGES && lo <= v < vp + k ensures NewPage(s0, t, d, v) {
      if v < vp {
        assert NewPage(s0, s, d, v);
        var g := Frame(Entry(s.mem, d, v));
        assert g != f && g in t.use && t.use[g] == s.use[g] && t.mem[g] == s.mem[g];
      }
    }
  }

  /** Taking the new pages away leaves no trace in the entries. */
  lemma GrowBack(s0: State, s: State, t: State, d: int, lo: int, vp: int, hi: int, hand: set<int>)
    requires Grown(s0, s, d, lo, vp, hand) && vp <= hi && Cleared(s, t, d, lo, hi)
    requires 0 <= lo && hi <= KERNPAGES && forall v :: lo <= v < hi ==> !Present(Entry(s0.mem, d, v))
    ensures Grown(s0, t, d, lo, lo, hand)
  {
    forall v | 0 <= v < PAGES ensures Entry(t.mem, d, v) == Entry(s0.mem, d, v) {
      if lo <= v < hi { assert PageOk(s0, d, v); }
      if lo <= v < vp { assert NewPage(s0, s, d, v); }
    }
    forall f | f in s0.use ensures !InRange(s0.use[f], d, lo, hi) { assert UseOk(s0, f); }
  }

  /** A frame in hand goes back. */
  lemma GrowGive(s0: State, s: State, d: int, lo: int, f: int)
    requires Grown(s0, s, d, lo, lo, {f})
    ensures Walked(s0, Given(s, f), d)
  {
    GiveKeeps(s, f);
    forall v | 0 <= v < PAGES ensures Entry(Given(s, f).mem, d, v) == Entry(s.mem, d, v) {
      EntrySame(s, Given(s, f), d, v);
    }
  }

  // ----- copying -----

  /** Directory `d` is new and maps the kernel; its first `k` pages are copies of those
      of `d0`, on frames that were free. */
  ghost predicate Copied(s0: State, s: State, d0: int, d: int, kmap: seq<Region>, k: int, hand: set<int>) {
    && Newborn(s0, s, d, hand)
    && (forall vp {:trigger CopyOf(s0, s, d0, d, vp)} :: 0 <= vp < PAGES && vp < k ==> CopyOf(s0, s, d0, d, vp))
    && (forall vp :: 0 <= vp < PAGES && k <= vp ==> Entry(s.mem, d, vp) == KernEntry(kmap, vp))
  }

  /** Same contents and flags, on a frame that was free. */
  ghost predicate CopyOf(s0: State, s: State, d0: int, d: int, vp: int)
    requires 0 <= vp < PAGES
  {
    var w0, w := Entry(s0.mem, d0, vp), Entry(s.mem, d, vp);
    && Present(w) && Flags(w) == Flags(w0)
    && Frame(w) in s.use && Frame(w) !in s0.use && s.use[Frame(w)] == User(d, vp)
    && Frame(w) in s.mem && Frame(w0) in s0.mem && s.mem[Frame(w)] == s0.mem[Frame(w0)]
  }

  lemma CopyTake(s0: State, s: State, t: State, d0: int, d: int, kmap: seq<Region>, vp: int, f: int)
    requires Copied(s0, s, d0, d, kmap, vp, {}) && Took(s, t, f)
    ensures Copied(s0, t, d0, d, kmap, vp, {f})
  {
    forall v | 0 <= v < PAGES && v < vp ensures CopyOf(s0, t, d0, d, v) { assert CopyOf(s0, s, d0, d, v); }
  }

  lemma CopyMap(s0: State, s: State, t: State, d0: int, d: int, kmap: seq<Region>, vp: int, f: int, k: int, flags: int)
    requires Copied(s0, s, d0, d, kmap, vp, {f}) && 0 <= vp < KERNPAGES && 0 <= k <= 1 && IsDir(s0, d0)
    requires Present(Entry(s0.mem, d0, vp)) && flags == Flags(Entry(s0.mem, d0, vp))
    requires f in s.mem && Frame(Entry(s0.mem, d0, vp)) in s0.mem && s.mem[f] == s0.mem[Frame(Entry(s0.mem, d0, vp))]
    requires MappedTo(s, t, d, vp, k, f * PGSIZE, flags)
    ensures Copied(s0, t, d0, d, kmap, vp + k, if k > 0 then {} else {f})
  {
    FlagsPresent(Entry(s0.mem, d0, vp));
    PteFields(f * PGSIZE, flags);
    assert Frame(f * PGSIZE) == f;
    NewbornMapped(s0, s, t, d, {f}, vp, k, f * PGSIZE, flags);
    forall v | 0 <= v < PAGES && v < vp + k ensures CopyOf(s0, t, d0, d, v) {
      if v < vp {
        assert CopyOf(s0, s, d0, d, v);
        var g := Frame(Entry(s.mem, d, v));
        assert g != f && g in t.use && t.use[g] == s.use[g] && t.mem[g] == s.mem[g];
      }
    }
  }

  lemma FlagsPresent(w: int)
    ensures Present(Flags(w)) <==> Present(w)
  {
    var q := w / PGSIZE;
    assert w == 2 * (2048 * q) + Flags(w);
  }

  /** The original is where it was. */
  lemma OriginalKept(s0: State, s: State, d0: int, d: int, vp: int)
    requires Newborn(s0, s, d, {}) && IsDir(s0, d0) && 0 <= vp < KERNPAGES && Present(Entry(s0.mem, d0, vp))
    ensures Entry(s.mem, d0, vp) == Entry(s0.mem, d0, vp)
    ensures var f := Frame(Entry(s0.mem, d0, vp)); f in s0.use && f in s.mem && f in s0.mem && s.mem[f] == s0.mem[f]
    ensures IsDir(s, d0) && TableOk(s, d0, vp / NPT) && Present(s.mem[d0][vp / NPT])
  {
    EntrySame(s0, s, d0, vp);
    assert PageOk(s0, d0, vp);
    assert TableOk(s0, d0, vp / NPT) && TableOk(s, d0, vp / NPT);
  }

  class Vm {
    const first: int
    const limit: int
    const kmap: seq<Region>
    var mem: map<int, Page>
    var head: int
    ghost var free: seq<int>
    ghost var use: map<int, Use>

    ghost function S(): State
      reads this
    {
      State(first, limit, mem, head, free, use)
    }

    /** At boot every frame is in the kernel's hands. */
    constructor (first: int, limit: int, kmap: seq<Region>, mem: map<int, Page>)
      requires 0 < first <= limit && forall f :: first <= f < limit ==> f in mem && |mem[f]| == NPT
      ensures this.first == first && this.limit == limit && this.kmap == kmap && Inv(S())
      ensures free == [] && (forall f :: f in use <==> first <= f < limit) && forall f :: f in use ==> use[f] == Kernel
    {
      this.first, this.limit, this.kmap, this.mem := first, limit, kmap, mem;
      head, free, use := 0, [], map f | f in mem && first <= f < limit :: Kernel;
    }

    /** Frees the frames from `lo` up to `hi`. */
    method Freerange(lo: int, hi: int)
      requires Inv(S()) && first <= lo <= hi <= limit
      requires forall f :: lo <= f < hi ==> f in use && use[f] == Kernel
      modifies this`mem, this`head, this`free, this`use
      ensures Inv(S()) && |free| == |old(free)| + hi - lo
      ensures forall f :: f in use <==> f in old(use) && !(lo <= f < hi)
      ensures forall f :: f in use ==> use[f] == old(use)[f] && f in mem && f in old(mem) && mem[f] == old(mem)[f]
    {
      var p := lo;
      while p < hi
        invariant lo <= p <= hi && Inv(S()) && |free| == |old(free)| + p - lo
        invariant forall f :: f in use <==> f in old(use) && !(lo <= f < p)
        invariant forall f :: f in use ==> use[f] == old(use)[f] && f in mem && f in old(mem) && mem[f] == old(mem)[f]
      {
        GiveKeeps(S(), p);
        var panic := Kfree(p);
        assert !panic;
        p := p + 1;
      }
    }

    method Kalloc() returns (r: int)
      requires Inv(S())
      modifies this`head, this`free, this`use
      ensures Inv(S())
      ensures r == 0 <==> old(free) == []
      ensures r == 0 ==> S() == old(S())
      ensures r != 0 ==>
        && first <= r < limit && r in old(free) && r !in old(use)
        && use == old(use)[r := Kernel] && free == old(free)[1..]
    {
      ghost var s := S();
      assert s.free != [] ==> s.free[0] in s.free;
      r := head;
      if r != 0 {
        assert r == s.free[0] && LinkedAt(s, 0);
        head := Frame(mem[r][0]);
        free := free[1..];
        use := use[r := Kernel];
        TakeKeeps(s, S());
      }
    }

    method Kfree(f: int) returns (panic: bool)
      requires Pool(S()) && (first <= f < limit ==> f in use)
      modifies this`mem, this`head, this`free, this`use
      ensures panic <==> !(first <= f < limit)
      ensures S() == if panic then old(S()) else Given(old(S()), f)
    {
      if f < first || f >= limit { return true; }
      mem := mem[f := Junk(head)];
      head := f;
      free := [f] + free;
      use := use - {f};
      return false;
    }

    /** The table that holds the entry for page `vp`, or 0. */
    method Walkpgdir(d: int, vp: int, alloc: bool) returns (t: int)
      requires Inv(S()) && IsDir(S(), d) && 0 <= vp < PAGES
      modifies this`mem, this`head, this`free, this`use
      ensures Inv(S()) && IsDir(S(), d) && TableOk(S(), d, vp / NPT)
      ensures t == 0 ==> S() == old(S()) && !Present(mem[d][vp / NPT]) && (alloc ==> free == [])
      ensures t != 0 ==> Present(mem[d][vp / NPT]) && t == Frame(mem[d][vp / NPT]) && t in use
      ensures if alloc then Walked(old(S()), S(), d) else S() == old(S())
    {
      ghost var s0 := S();
      assert TableOk(s0, d, vp / NPT);
      if Present(mem[d][vp / NPT]) {
        return Frame(mem[d][vp / NPT]);
      }
      if !alloc { return 0; }
      t := Kalloc();
      if t == 0 { return; }
      ghost var s1 := S();
      mem := mem[t := Zeros()];
      ghost var s2 := S();
      ZeroKeeps(s1, s2, t);
      mem := mem[d := mem[d][vp / NPT := t * PGSIZE + PTE_U + PTE_W + 1]];
      use := use[t := Table(d, vp / NPT)];
      NewTable(s2, S(), d, vp / NPT, t, mem[d][vp / NPT]);
    }

    /** Maps page `q` of a run that starts at `vp`. */
    method MapPage(d: int, q: int, p: int, perm: int, ghost s0: State, ghost vp: int, ghost k: int, ghost n: int,
                   ghost pa: int)
      returns (r: MapResult)
      requires MappedTo(s0, S(), d, vp, k, pa, perm) && Absent(s0.mem, d, vp, k)
      requires 0 <= vp && 0 <= k < n && vp + n <= PAGES && InHand(s0, vp, n, pa)
      requires pa % PGSIZE == 0 && 0 <= perm < PGSIZE && q == vp + k && p == pa + k * PGSIZE
      modifies this`mem, this`head, this`free, this`use
      ensures MappedTo(s0, S(), d, vp, if r.Mapped? then k + 1 else k, pa, perm)
      ensures r.NoMemory? ==> free == []
      ensures r.Remap? <==> !Absent(s0.mem, d, vp, k + 1)
    {
      OneMore(s0.mem, d, vp, k, q);
      ghost var s := S();
      assert Entry(s.mem, d, q) == Entry(s0.mem, d, q);
      var t := Walkpgdir(d, q, true);
      ghost var w := S();
      MappedWalked(s0, s, w, d, vp, k, pa, perm);
      if t == 0 { return NoMemory; }
      if Present(mem[t][q % NPT]) { return Remap; }
      mem := mem[t := mem[t][q % NPT := Pte(p, perm)]];
      if q < KERNPAGES { use := use[Frame(p) := User(d, q)]; }
      MapOne(s0, w, S(), d, vp, k, n, pa, perm, t, q, p);
      return Mapped;
    }

    /** Maps the pages of `size` bytes at `va` to physical memory at `pa`. */
    method Mappages(d: int, va: int, size: int, pa: int, perm: int) returns (r: MapResult, ghost k: int)
      requires Inv(S()) && IsDir(S(), d) && 0 <= va && 0 < size && va + size <= UINT
      requires 0 <= pa && pa % PGSIZE == 0 && 0 <= perm < PGSIZE
      requires InHand(S(), va / PGSIZE, PagesIn(va, size), pa)
      modifies this`mem, this`head, this`free, this`use
      ensures 0 <= k <= PagesIn(va, size) && MappedTo(old(S()), S(), d, va / PGSIZE, k, pa, perm)
      ensures r.Mapped? ==> k == PagesIn(va, size)
      ensures r.NoMemory? ==> k < PagesIn(va, size) && free == []
      ensures r.Remap? ==> k < PagesIn(va, size)
      ensures Absent(old(mem), d, va / PGSIZE, k)
      ensures k < PagesIn(va, size) ==> (r.Remap? <==> !Absent(old(mem), d, va / PGSIZE, k + 1))
    {
      ghost var s0, n := S(), PagesIn(va, size);
      var a, last, p := va / PGSIZE * PGSIZE, (va + size - 1) / PGSIZE * PGSIZE, pa;
      k := 0;
      while true
        invariant 0 <= k < n && a == (va / PGSIZE + k) * PGSIZE && p == pa + k * PGSIZE
        invariant MappedTo(s0, S(), d, va / PGSIZE, k, pa, perm) && Absent(s0.mem, d, va / PGSIZE, k)
        decreases n - k
      {
        assert a / PGSIZE == va / PGSIZE + k;
        r := MapPage(d, a / PGSIZE, p, perm, s0, va / PGSIZE, k, n, pa);
        if !r.Mapped? { return; }
        assert Absent(s0.mem, d, va / PGSIZE, k + 1);
        k := k + 1;
        if a == last { break; }
        a, p := a + PGSIZE, p + PGSIZE;
      }
    }

    /** Frees the user pages between two sizes. */
    method Deallocuvm(d: int, oldsz: int, newsz: int) returns (r: int)
      requires Inv(S()) && IsDir(S(), d) && 0 <= oldsz <= KERNBASE && 0 <= newsz < UINT
      modifies this`mem, this`head, this`free, this`use
      ensures newsz >= oldsz ==> r == oldsz && S() == old(S())
      ensures newsz < oldsz ==> r == newsz && Cleared(old(S()), S(), d, PageUp(newsz), PageUp(oldsz))
    {
      if newsz >= oldsz { return oldsz; }
      ghost var s0, lo, hi := S(), PageUp(newsz), PageUp(oldsz);
      var a := RoundUp(newsz);
      ghost var vp, m := lo, lo;
      while a < oldsz
        invariant a == vp * PGSIZE && lo <= vp && m == Min(vp, hi)
        invariant Cleared(s0, S(), d, lo, m)
      {
        assert vp < hi;
        a, vp, m := ClearAt(d, a, s0, lo, hi, vp);
      }
      return newsz;
    }

    /** Clears the page at `a`, or passes over the rest of an absent table, and returns
        the next address. */
    method ClearAt(d: int, a: int, ghost s0: State, ghost lo: int, ghost hi: int, ghost vp: int)
      returns (b: int, ghost vq: int, ghost m: int)
      requires 0 <= lo <= vp < hi <= KERNPAGES && a == vp * PGSIZE && Cleared(s0, S(), d, lo, vp)
      modifies this`mem, this`head, this`free, this`use
      ensures vp < vq && b == vq * PGSIZE && m == Min(vq, hi) && Cleared(s0, S(), d, lo, m)
    {
      ghost var s := S();
      var t := Walkpgdir(d, a / PGSIZE, false);
      b := a;
      vq := vp;
      if t == 0 {
        b := (a / PGSIZE / NPT + 1) * NPT * PGSIZE - PGSIZE;
        vq := (vp / NPT + 1) * NPT - 1;
        m := Min(vq + 1, hi);
        ClearTable(s0, s, d, lo, vp, m);
      } else if Present(mem[t][a / PGSIZE % NPT]) {
        FreePage(d, a / PGSIZE, t, s0, lo);
        m := a / PGSIZE + 1;
      } else {
        m := vp + 1;
        ClearNone(s0, s, d, lo, vp, m);
      }
      b, vq := b + PGSIZE, vq + 1;
    }

    /** Frees the frame of a present page and zeroes its entry in table `t`. */
    method FreePage(d: int, vp: int, t: int, ghost s0: State, ghost lo: int)
      requires 0 <= lo <= vp < KERNPAGES && Cleared(s0, S(), d, lo, vp)
      requires TableOk(S(), d, vp / NPT) && Present(mem[d][vp / NPT]) && t == Frame(mem[d][vp / NPT])
      requires t in use && t in mem && |mem[t]| == NPT && Present(mem[t][vp % NPT])
      modifies this`mem, this`head, this`free, this`use
      ensures Cleared(s0, S(), d, lo, vp + 1)
    {
      ghost var s := S();
      var pa := Frame(mem[t][vp % NPT]);
      assert PageOk(s, d, vp) && pa != 0;
      var panic := Kfree(pa);
      assert !panic;
      mem := mem[t := mem[t][vp % NPT := 0]];
      ClearOne(s0, s, S(), d, lo, vp, vp + 1, t);
    }

    /** Frees the user pages, the tables and the directory. */
    method Freevm(d: int)
      requires Inv(S()) && IsDir(S(), d)
      modifies this`mem, this`head, this`free, this`use
      ensures Freed(old(S()), S(), d)
    {
      ghost var s0 := S();
      var _ := Deallocuvm(d, KERNBASE, 0);
      assert PageUp(0) == 0 && PageUp(KERNBASE) == KERNPAGES;
      ghost var s1 := S();
      use := map f | f in use :: if InTree(use[f], f, d) then Kernel else use[f];
      FreeingStarts(s1, S(), d);
      var i := 0;
      while i < NPT
        invariant 0 <= i <= NPT && Freeing(s1, S(), d, i)
      {
        FreeingNext(s1, S(), d, i);
        if Present(mem[d][i]) {
          var panic := Kfree(Frame(mem[d][i]));
          assert !panic;
        }
        i := i + 1;
      }
      ghost var s := S();
      var panic := Kfree(d);
      assert !panic;
      FreeingEnds(s0, s1, s, S(), d);
    }

    /** Maps region `j` of the kernel; "remap" cannot happen. */
    method MapRegion(d: int, j: int, ghost s0: State) returns (r: MapResult)
      requires KmapOk(kmap) && 0 <= j < |kmap| && Newborn(s0, S(), d, {}) && KernelOnly(mem, d, kmap[..j])
      modifies this`mem, this`head, this`free, this`use
      ensures !r.Remap? && Newborn(s0, S(), d, {})
      ensures r.Mapped? ==> KernelOnly(mem, d, kmap[..j + 1])
    {
      ghost var s := S();
      var g := kmap[j];
      assert RegionOk(g);
      ghost var k;
      NoRemap(mem, d, kmap, j);
      r, k := Mappages(d, g.virt, (g.end - g.start) % UINT, g.start, g.perm);
      NewbornMapped(s0, s, S(), d, {}, First(g), k, g.start, g.perm);
      if r.Mapped? {
        RegionMapped(s.mem, mem, d, kmap, j);
      } else {
        FewerAbsent(s.mem, d, First(g), k + 1, Count(g));
      }
    }

    /** An empty directory, or 0. */
    method KallocDirectory() returns (d: int)
      requires Inv(S())
      modifies this`mem, this`head, this`free, this`use
      ensures d == 0 ==> Restored(old(S()), S())
      ensures d != 0 ==> Newborn(old(S()), S(), d, {}) && KernelOnly(mem, d, [])
    {
      d := Kalloc();
      if d == 0 { return; }
      ghost var s1 := S();
      mem := mem[d := Zeros()];
      ghost var s2 := S();
      ZeroKeeps(s1, s2, d);
      use := use[d := Directory];
      NewDirectory(s2, S(), d);
    }

    /** A directory that maps the kernel only, or 0. */
    method Setupkvm() returns (d: int)
      requires Inv(S()) && KmapOk(kmap)
      modifies this`mem, this`head, this`free, this`use
      ensures d == 0 ==> Restored(old(S()), S())
      ensures d != 0 ==> Newborn(old(S()), S(), d, {}) && KernelOnly(mem, d, kmap)
    {
      ghost var s0 := S();
      d := KallocDirectory();
      if d == 0 { return; }
      var j := 0;
      while j < |kmap|
        invariant 0 <= j <= |kmap|
        invariant Newborn(s0, S(), d, {}) && KernelOnly(mem, d, kmap[..j])
      {
        var r := MapRegion(d, j, s0);
        if r.NoMemory? {
          ghost var t := S();
          Freevm(d);
          NewbornFreed(s0, t, S(), d);
          return 0;
        }
        j := j + 1;
      }
      assert kmap[..j] == kmap;
    }

    /** A free frame with the words of `page`, or 0. */
    method KallocFilled(page: Page) returns (f: int)
      requires Inv(S()) && |page| == NPT
      modifies this`mem, this`head, this`free, this`use
      ensures f == 0 ==> S() == old(S())
      ensures f != 0 ==> Took(old(S()), S(), f) && mem[f] == page
    {
      ghost var s := S();
      f := Kalloc();
      if f != 0 {
        ghost var t := S();
        mem := mem[f := page];
        TreesSame(s, t);
        ZeroKeeps(t, S(), f);
      }
    }

    method ZeroedFrame(d: int, ghost s0: State, ghost lo: int, ghost vp: int) returns (f: int)
      requires Grown(s0, S(), d, lo, vp, {})
      modifies this`mem, this`head, this`free, this`use
      ensures Grown(s0, S(), d, lo, vp, if f == 0 then {} else {f})
      ensures f != 0 ==> 0 < f && f in use && use[f] == Kernel && f in mem && mem[f] == Zeros()
    {
      ghost var s := S();
      f := KallocFilled(Zeros());
      if f != 0 { GrowTake(s0, s, S(), d, lo, vp, f); }
    }

    /** Allocates and maps one zeroed page; a frame that could not be mapped stays in
        hand. */
    method GrowPage(d: int, a: int, ghost s0: State, ghost lo: int, ghost vp: int)
      returns (f: int, m: MapResult, ghost vq: int, ghost hand: set<int>)
      requires 0 <= lo <= vp < KERNPAGES && a == vp * PGSIZE && Grown(s0, S(), d, lo, vp, {})
      requires !Present(Entry(s0.mem, d, vp))
      modifies this`mem, this`head, this`free, this`use
      ensures !m.Remap? && (f == 0 ==> m.NoMemory?)
      ensures vq == (if m.Mapped? then vp + 1 else vp) && hand == if f == 0 || m.Mapped? then {} else {f}
      ensures Grown(s0, S(), d, lo, vq, hand)
    {
      f := ZeroedFrame(d, s0, lo, vp);
      if f == 0 { return f, NoMemory, vp, {}; }
      ghost var s1 := S();
      OnePage(s1, d, a, vp, f);
      ghost var k;
      m, k := Mappages(d, a, PGSIZE, f * PGSIZE, PTE_W + PTE_U);
      vq, hand := vp + k, if k == 1 then {} else {f};
      GrowMap(s0, s1, S(), d, lo, vp, f, k, hand);
    }

    /** Takes the new pages away again, and frees frame `f` that could not be mapped. */
    method GiveUp(d: int, oldsz: int, newsz: int, f: int, ghost s0: State, ghost vp: int, ghost hand: set<int>)
      requires 0 <= oldsz < newsz < KERNBASE && PageUp(oldsz) <= vp < PageUp(newsz)
      requires hand == (if f == 0 then {} else {f}) && Grown(s0, S(), d, PageUp(oldsz), vp, hand)
      requires forall v :: PageUp(oldsz) <= v < PageUp(newsz) ==> !Present(Entry(s0.mem, d, v))
      modifies this`mem, this`head, this`free, this`use
      ensures Walked(s0, S(), d)
    {
      ghost var s := S();
      var _ := Deallocuvm(d, newsz, oldsz);
      ghost var t := S();
      GrowBack(s0, s, t, d, PageUp(oldsz), vp, PageUp(newsz), hand);
      if f != 0 {
        GrowGive(s0, t, d, PageUp(oldsz), f);
        var panic := Kfree(f);
        assert !panic;
      }
    }

    /** Grows the user part of `d` from `oldsz` to `newsz` bytes. */
    method Allocuvm(d: int, oldsz: int, newsz: int) returns (r: int)
      requires Inv(S()) && IsDir(S(), d) && 0 <= oldsz < UINT && 0 <= newsz < UINT
      requires newsz < KERNBASE ==> forall vp :: PageUp(oldsz) <= vp < PageUp(newsz) ==> !Present(Entry(mem, d, vp))
      modifies this`mem, this`head, this`free, this`use
      ensures newsz >= KERNBASE ==> r == 0 && S() == old(S())
      ensures newsz < KERNBASE && newsz < oldsz ==> r == oldsz && S() == old(S())
      ensures oldsz <= newsz < KERNBASE ==>
        || (r == newsz && Grown(old(S()), S(), d, PageUp(oldsz), PageUp(newsz), {}))
        || (r == 0 && Walked(old(S()), S(), d))
    {
      if newsz >= KERNBASE { return 0; }
      if newsz < oldsz { return oldsz; }
      ghost var s0, lo, hi := S(), PageUp(oldsz), PageUp(newsz);
      var a := RoundUp(oldsz);
      ghost var vp := lo;
      while a < newsz
        invariant a == vp * PGSIZE && lo <= vp <= hi
        invariant Grown(s0, S(), d, lo, vp, {})
      {
        var f, m;
        ghost var hand;
        f, m, vp, hand := GrowPage(d, a, s0, lo, vp);
        if !m.Mapped? {
          GiveUp(d, oldsz, newsz, f, s0, vp, hand);
          return 0;
        }
        a := a + PGSIZE;
      }
      return newsz;
    }

    /** Copies one page of `d0` to `d`. */
    method CopyPage(d0: int, d: int, i: int, ghost s0: State, ghost vp: int) returns (ok: bool)
      requires KmapOk(kmap) && 0 <= vp < KERNPAGES && i == vp * PGSIZE && Copied(s0, S(), d0, d, kmap, vp, {})
      requires IsDir(s0, d0) && Present(Entry(s0.mem, d0, vp))
      modifies this`mem, this`head, this`free, this`use
      ensures if ok then Copied(s0, S(), d0, d, kmap, vp + 1, {}) else Newborn(s0, S(), d, {})
    {
      ghost var s := S();
      OriginalKept(s0, s, d0, d, vp);
      UserAbsent(kmap, vp);
      var t := Walkpgdir(d0, i / PGSIZE, false);
      var w := mem[t][i / PGSIZE % NPT];
      assert w == Entry(s0.mem, d0, vp);
      var f := KallocFilled(mem[Frame(w)]);
      if f == 0 { return false; }
      ghost var s1 := S();
      CopyTake(s0, s, s1, d0, d, kmap, vp, f);
      OnePage(s1, d, i, vp, f);
      var m, k := Mappages(d, i, PGSIZE, f * PGSIZE, Flags(w));
      CopyMap(s0, s1, S(), d0, d, kmap, vp, f, k, Flags(w));
      if m.NoMemory? {
        ghost var s2 := S();
        var panic := Kfree(f);
        assert !panic;
        NewbornGive(s0, s2, S(), d, f);
        return false;
      }
      return true;
    }

    /** A copy of directory `d0` and its pages below `sz`, or 0. */
    method Copyuvm(d0: int, sz: int) returns (d: int)
      requires Inv(S()) && IsDir(S(), d0) && KmapOk(kmap) && 0 <= sz <= KERNBASE
      requires forall vp :: 0 <= vp < PageUp(sz) ==> Present(Entry(mem, d0, vp))
      modifies this`mem, this`head, this`free, this`use
      ensures d == 0 ==> Restored(old(S()), S())
      ensures d != 0 ==> Copied(old(S()), S(), d0, d, kmap, PageUp(sz), {})
    {
      ghost var s0, n := S(), PageUp(sz);
      d := Setupkvm();
      if d == 0 { return; }
      var i := 0;
      ghost var vp := 0;
      while i < sz
        invariant i == vp * PGSIZE && 0 <= vp <= n
        invariant Copied(s0, S(), d0, d, kmap, vp, {})
      {
        var ok := CopyPage(d0, d, i, s0, vp);
        if !ok {
          ghost var s := S();
          Freevm(d);
          NewbornFreed(s0, s, S(), d);
          return 0;
        }
        i, vp := i + PGSIZE, vp + 1;
      }
    }
  }

  function PageUp(a: int): int { RoundUp(a) / PGSIZE }

  /** How many pages the `size` bytes at `va` touch. */
  function PagesIn(va: int, size: int): int { (va + size - 1) / PGSIZE - va / PGSIZE + 1 }

  /** One page is mapped to one frame. */
  lemma OnePage(s: State, d: int, a: int, vp: int, f: int)
    requires 0 <= vp < KERNPAGES && a == vp * PGSIZE && 0 < f && f in s.use && s.use[f] == Kernel
    requires !Present(Entry(s.mem, d, vp))
    ensures a / PGSIZE == vp && PagesIn(a, PGSIZE) == 1 && Absent(s.mem, d, a / PGSIZE, 1)
    ensures Frame(f * PGSIZE) == f && f * PGSIZE % PGSIZE == 0 && InHand(s, vp, 1, f * PGSIZE)
  {
  }

  /** A frame in hand may be written. */
  lemma ZeroKeeps(s: State, t: State, f: int)
    requires Inv(s) && f in s.use && s.use[f] == Kernel
    requires f in t.mem && |t.mem[f]| == NPT && t == s.(mem := s.mem[f := t.mem[f]])
    ensures Inv(t)
    ensures forall d, vp :: IsDir(s, d) && 0 <= vp < PAGES ==> Entry(t.mem, d, vp) == Entry(s.mem, d, vp)
  {
    forall k | 0 <= k < |t.free| ensures LinkedAt(t, k) { assert LinkedAt(s, k); }
    TreesSame(s, t);
  }
}
