/** Physical page frames: the free list threaded through them, and the page tables
    that own them. */
module Frames {

  const PGSIZE := 4096
  const NPT := 1024             // words in a page, entries in a directory or table
  const PAGES := 0x10_0000      // virtual pages
  const KERNPAGES := 0x8_0000   // KERNBASE / PGSIZE: virtual pages below belong to the user

  /** A page as its NPT words. */
  type Page = seq<int>

  function Zeros(): (p: Page) ensures |p| == NPT { seq(NPT, _ => 0) }

  // A page-table entry is a frame's address plus 12 bits of flags; bit 0 is PTE_P.
  function Present(w: int): bool { w % 2 == 1 }
  function Frame(w: int): int { w / PGSIZE }
  function Flags(w: int): int { w % PGSIZE }

  /** `pa | perm | PTE_P` for a page-aligned `pa`. */
  function Pte(pa: int, perm: int): int { pa + perm + if Present(perm) then 0 else 1 }

  lemma PteFields(pa: int, perm: int)
    requires pa % PGSIZE == 0 && 0 <= perm < PGSIZE
    ensures Present(Pte(pa, perm)) && Frame(Pte(pa, perm)) == Frame(pa)
    ensures Present(perm) ==> Flags(Pte(pa, perm)) == perm
  {
    var q, r := pa / PGSIZE, perm + if Present(perm) then 0 else 1;
    assert pa == PGSIZE * q && 0 <= r < PGSIZE;
    Split(q, r);
  }

  lemma Split(q: int, r: int)
    requires 0 <= r < PGSIZE
    ensures (PGSIZE * q + r) / PGSIZE == q && (PGSIZE * q + r) % PGSIZE == r
    ensures (PGSIZE * q + r) % 2 == r % 2
  {
    SplitLow(q, r);
  }

  lemma SplitLow(q: int, r: int)
    ensures (PGSIZE * q + r) % 2 == r % 2
  {
    assert PGSIZE * q + r == 2 * (2048 * q) + r;
  }

  /** What a frame that is not free is used for. */
  datatype Use =
    | Directory
    | Table(d: int, i: int)    // the table of entry `i` of directory `d`
    | User(d: int, vp: int)    // virtual page `vp` of directory `d`
    | Kernel                   // kernel data, or in the hands of an operation

  /** `free` is the list that starts at `head` and goes on through word 0 of each
      free frame. */
  datatype State = State(first: int, limit: int, mem: map<int, Page>, head: int, free: seq<int>, use: map<int, Use>)

  function HeadOf(free: seq<int>): int { if free == [] then 0 else free[0] }

  ghost predicate LinkedAt(s: State, k: int)
    requires 0 <= k < |s.free|
  {
    var f := s.free[k];
    f in s.mem && |s.mem[f]| == NPT && Frame(s.mem[f][0]) == if k + 1 < |s.free| then s.free[k + 1] else 0
  }

  /** Each frame is free or in use, and not both; the list is not damaged. */
  ghost predicate Pool(s: State) {
    && 0 < s.first <= s.limit
    && (forall f :: s.first <= f < s.limit ==> f in s.mem && |s.mem[f]| == NPT)
    && (forall f :: f in s.use ==> s.first <= f < s.limit)
    && (forall f :: f in s.free ==> s.first <= f < s.limit)
    && (forall f :: s.first <= f < s.limit ==> (f in s.use <==> f !in s.free))
    && (forall j, k :: 0 <= j < k < |s.free| ==> s.free[j] != s.free[k])
    && s.head == HeadOf(s.free)
    && (forall k :: 0 <= k < |s.free| ==> LinkedAt(s, k))
  }

  // ----- page tables -----

  /** The entry for virtual page `vp`; 0 if there is no table for it. */
  function Entry(mem: map<int, Page>, d: int, vp: int): int
    requires 0 <= vp < PAGES
  {
    if d in mem && |mem[d]| == NPT && Present(mem[d][vp / NPT]) then
      var t := Frame(mem[d][vp / NPT]);
      if t in mem && |mem[t]| == NPT then mem[t][vp % NPT] else 0
    else 0
  }

  predicate IsDir(s: State, d: int) { d in s.use && s.use[d] == Directory }

  ghost predicate TableOk(s: State, d: int, i: int)
    requires 0 <= i < NPT
  {
    && d in s.mem && |s.mem[d]| == NPT
    && (Present(s.mem[d][i]) ==>
          var t := Frame(s.mem[d][i]); t in s.use && s.use[t] == Table(d, i))
  }

  ghost predicate PageOk(s: State, d: int, vp: int)
    requires 0 <= vp < KERNPAGES
  {
    var w := Entry(s.mem, d, vp);
    if Present(w) then Frame(w) in s.use && s.use[Frame(w)] == User(d, vp) else w == 0
  }

  ghost predicate UseOk(s: State, f: int)
    requires f in s.use
  {
    match s.use[f]
    case Directory => true
    case Kernel => true
    case Table(d, i) =>
      IsDir(s, d) && 0 <= i < NPT && d in s.mem && |s.mem[d]| == NPT && Present(s.mem[d][i]) && Frame(s.mem[d][i]) == f
    case User(d, vp) =>
      IsDir(s, d) && 0 <= vp < KERNPAGES && Present(Entry(s.mem, d, vp)) && Frame(Entry(s.mem, d, vp)) == f
  }

  /** Every table and every user page has its own frame, and no frame is claimed by
      a table or page that is not there. */
  ghost predicate Trees(s: State) {
    && (forall d, i :: IsDir(s, d) && 0 <= i < NPT ==> TableOk(s, d, i))
    && (forall d, vp :: IsDir(s, d) && 0 <= vp < KERNPAGES ==> PageOk(s, d, vp))
    && (forall f {:trigger UseOk(s, f)} :: f in s.use ==> UseOk(s, f))
  }

  ghost predicate Inv(s: State) { Pool(s) && Trees(s) }

  /** No two user pages share a frame, and none lies in a page table or on the
      free list. */
  lemma Isolation(s: State, d: int, vp: int, e: int, vq: int)
    requires Inv(s) && IsDir(s, d) && IsDir(s, e) && 0 <= vp < KERNPAGES && 0 <= vq < KERNPAGES
    requires Present(Entry(s.mem, d, vp))
    ensures var f := Frame(Entry(s.mem, d, vp));
            && f !in s.free && !IsDir(s, f)
            && (forall i :: 0 <= i < NPT && Present(s.mem[e][i]) ==> Frame(s.mem[e][i]) != f)
            && (Present(Entry(s.mem, e, vq)) && Frame(Entry(s.mem, e, vq)) == f ==> e == d && vq == vp)
  {
    assert PageOk(s, d, vp) && PageOk(s, e, vq);
    forall i | 0 <= i < NPT && Present(s.mem[e][i]) ensures Frame(s.mem[e][i]) != Frame(Entry(s.mem, d, vp)) {
      assert TableOk(s, e, i);
    }
  }

  // ----- the free list -----

  /** kalloc: the frame at the head is taken. */
  lemma TakeKeeps(s: State, t: State)
    requires Inv(s) && s.free != [] && s.head in s.mem && |s.mem[s.head]| == NPT
    requires t == s.(head := Frame(s.mem[s.head][0]), free := s.free[1..], use := s.use[s.head := Kernel])
    ensures Inv(t)
  {
    TakePool(s, t);
    assert s.head in s.free;
    TreesSame(s, t);
  }

  lemma TakePool(s: State, t: State)
    requires Pool(s) && s.free != [] && s.head in s.mem && |s.mem[s.head]| == NPT
    requires t == s.(head := Frame(s.mem[s.head][0]), free := s.free[1..], use := s.use[s.head := Kernel])
    ensures Pool(t)
  {
    assert LinkedAt(s, 0);
    assert s.free == [s.head] + t.free && s.head in s.free;
    assert forall f :: f in t.free ==> f in s.free;
    forall k | 0 <= k < |t.free| ensures LinkedAt(t, k) { assert LinkedAt(s, k + 1); }
  }

  /** A freed page: the link to the rest, and junk. */
  function Junk(next: int): (p: Page)
    ensures |p| == NPT && Frame(p[0]) == next
  {
    seq(NPT, _ => 0x0101_0101)[0 := next * PGSIZE]
  }

  ghost function Given(s: State, f: int): State {
    s.(mem := s.mem[f := Junk(s.head)], head := f, free := [f] + s.free, use := s.use - {f})
  }

  /** kfree keeps the list in order for any frame that is not on it. */
  lemma GivePool(s: State, f: int)
    requires Pool(s) && f in s.use
    ensures Pool(Given(s, f))
  {
    var t := Given(s, f);
    forall k | 0 <= k < |t.free| ensures LinkedAt(t, k) {
      if k > 0 { assert LinkedAt(s, k - 1); }
    }
  }

  lemma GiveKeeps(s: State, f: int)
    requires Inv(s) && f in s.use && s.use[f] == Kernel
    ensures Inv(Given(s, f))
  {
    GivePool(s, f);
    TreesSame(s, Given(s, f));
  }

  ghost predicate IsTree(u: Use) { u.Directory? || u.Table? }

  /** Directories and tables as they were: entries too. */
  lemma EntrySame(s: State, t: State, d: int, vp: int)
    requires Inv(s) && IsDir(s, d) && 0 <= vp < PAGES
    requires d in t.mem && t.mem[d] == s.mem[d]
    requires forall f :: f in s.use && s.use[f].Table? && s.use[f].d == d ==> f in t.mem && t.mem[f] == s.mem[f]
    ensures Entry(t.mem, d, vp) == Entry(s.mem, d, vp)
  {
    assert TableOk(s, d, vp / NPT);
  }

  /** A change that touches no directory, table or user page. */
  lemma TreesSame(s: State, t: State)
    requires Inv(s)
    requires forall f :: f in s.use && s.use[f] != Kernel ==> f in t.use && t.use[f] == s.use[f]
    requires forall f :: f in t.use && t.use[f] != Kernel ==> f in s.use && s.use[f] == t.use[f]
    requires forall f :: f in s.use && IsTree(s.use[f]) ==> f in t.mem && t.mem[f] == s.mem[f]
    ensures Trees(t)
    ensures forall d, vp :: IsDir(s, d) && 0 <= vp < PAGES ==> Entry(t.mem, d, vp) == Entry(s.mem, d, vp)
  {
    forall d, vp | IsDir(s, d) && 0 <= vp < PAGES ensures Entry(t.mem, d, vp) == Entry(s.mem, d, vp) {
      EntrySame(s, t, d, vp);
    }
    forall d, i | IsDir(t, d) && 0 <= i < NPT ensures TableOk(t, d, i) { assert TableOk(s, d, i); }
    forall d, vp | IsDir(t, d) && 0 <= vp < KERNPAGES ensures PageOk(t, d, vp) { assert PageOk(s, d, vp); }
    forall f | f in t.use ensures UseOk(t, f) {
      if t.use[f] != Kernel { assert UseOk(s, f); }
    }
  }

  // ----- changes to one directory -----

  /** A frame in hand, all zero, becomes a directory. */
  lemma NewDirectory(s: State, t: State, d: int)
    requires Inv(s) && d in s.use && s.use[d] == Kernel && s.mem[d] == Zeros()
    requires t == s.(use := s.use[d := Directory])
    ensures Inv(t) && forall vp :: 0 <= vp < PAGES ==> Entry(t.mem, d, vp) == 0
  {
    forall k | 0 <= k < |t.free| ensures LinkedAt(t, k) { assert LinkedAt(s, k); }
    forall e, i | IsDir(t, e) && 0 <= i < NPT ensures TableOk(t, e, i) {
      if e != d { assert TableOk(s, e, i); }
    }
    forall e, vp | IsDir(t, e) && 0 <= vp < KERNPAGES ensures PageOk(t, e, vp) {
      if e != d { assert PageOk(s, e, vp); }
    }
    forall f | f in t.use ensures UseOk(t, f) {
      if f != d { assert UseOk(s, f); }
    }
  }

  /** walkpgdir adds a table: an all-zero frame in hand.  No entry changes. */
  lemma NewTable(s: State, t: State, d: int, i: int, f: int, w: int)
    requires Inv(s) && IsDir(s, d) && 0 <= i < NPT && TableOk(s, d, i) && !Present(s.mem[d][i])
    requires f in s.use && s.use[f] == Kernel && s.mem[f] == Zeros() && Present(w) && Frame(w) == f
    requires t == s.(mem := s.mem[d := s.mem[d][i := w]], use := s.use[f := Table(d, i)])
    ensures Inv(t) && forall vp :: 0 <= vp < PAGES ==> Entry(t.mem, d, vp) == Entry(s.mem, d, vp)
  {
    forall k | 0 <= k < |t.free| ensures LinkedAt(t, k) { assert LinkedAt(s, k); }
    forall vp | 0 <= vp < PAGES ensures Entry(t.mem, d, vp) == Entry(s.mem, d, vp) { assert TableOk(s, d, vp / NPT); }
    OthersSame(s, t, d);
    forall j | 0 <= j < NPT ensures TableOk(t, d, j) { assert TableOk(s, d, j); }
    forall vp | 0 <= vp < KERNPAGES ensures PageOk(t, d, vp) { assert PageOk(s, d, vp); }
    forall g | g in t.use ensures UseOk(t, g) {
      if g != f { assert UseOk(s, g); }
    }
  }

  /** A change inside directory `d` leaves the other directories as they were. */
  lemma OthersSame(s: State, t: State, d: int)
    requires Inv(s) && IsDir(s, d)
    requires forall f :: f in s.use && IsTree(s.use[f]) && f != d && !(s.use[f].Table? && s.use[f].d == d) ==>
        f in t.mem && t.mem[f] == s.mem[f]
    requires forall f :: f in s.use && !InTree(s.use[f], f, d) && s.use[f] != Kernel ==>
        f in t.use && t.use[f] == s.use[f]
    requires forall f :: f in t.use && t.use[f] == Directory && f != d ==> IsDir(s, f)
    ensures forall e, vp :: IsDir(s, e) && e != d && 0 <= vp < PAGES ==> Entry(t.mem, e, vp) == Entry(s.mem, e, vp)
    ensures forall e, i :: IsDir(t, e) && e != d && 0 <= i < NPT ==> TableOk(t, e, i)
    ensures forall e, vp :: IsDir(t, e) && e != d && 0 <= vp < KERNPAGES ==> PageOk(t, e, vp)
  {
    forall e, vp | IsDir(s, e) && e != d && 0 <= vp < PAGES ensures Entry(t.mem, e, vp) == Entry(s.mem, e, vp) {
      EntrySame(s, t, e, vp);
    }
    forall e, i | IsDir(t, e) && e != d && 0 <= i < NPT ensures TableOk(t, e, i) { assert TableOk(s, e, i); }
    forall e, vp | IsDir(t, e) && e != d && 0 <= vp < KERNPAGES ensures PageOk(t, e, vp) { assert PageOk(s, e, vp); }
  }

  /** Frame `f`, used as `u`, belongs to directory `d`. */
  ghost predicate InTree(u: Use, f: int, d: int) {
    f == d || (u.Table? && u.d == d) || (u.User? && u.d == d)
  }

  /** mappages writes the entry of an absent page: a user page takes over a frame in
      hand, and a kernel page is nobody's. */
  lemma EntrySet(s: State, t: State, d: int, vp: int, w: int)
    requires Inv(s) && IsDir(s, d) && 0 <= vp < PAGES && !Present(Entry(s.mem, d, vp))
    requires TableOk(s, d, vp / NPT) && Present(s.mem[d][vp / NPT])
    requires vp < KERNPAGES ==> Present(w) && Frame(w) in s.use && s.use[Frame(w)] == Kernel
    requires var p := Frame(s.mem[d][vp / NPT]);
             && p in s.mem && |s.mem[p]| == NPT
             && t == s.(mem := s.mem[p := s.mem[p][vp % NPT := w]],
                        use := if vp < KERNPAGES then s.use[Frame(w) := User(d, vp)] else s.use)
    ensures Inv(t)
    ensures forall vq :: 0 <= vq < PAGES ==> Entry(t.mem, d, vq) == if vq == vp then w else Entry(s.mem, d, vq)
  {
    forall k | 0 <= k < |t.free| ensures LinkedAt(t, k) { assert LinkedAt(s, k); }
    EntryWritten(s, t, d, vp, w);
    OthersSame(s, t, d);
    forall i | 0 <= i < NPT ensures TableOk(t, d, i) { assert TableOk(s, d, i); }
    forall vq | 0 <= vq < KERNPAGES ensures PageOk(t, d, vq) { assert PageOk(s, d, vq); }
    forall f | f in t.use ensures UseOk(t, f) {
      if f in s.use && t.use[f] == s.use[f] { assert UseOk(s, f); }
    }
  }

  lemma EntryWritten(s: State, t: State, d: int, vp: int, w: int)
    requires Inv(s) && IsDir(s, d) && 0 <= vp < PAGES
    requires TableOk(s, d, vp / NPT) && Present(s.mem[d][vp / NPT])
    requires var p := Frame(s.mem[d][vp / NPT]);
             && p in s.mem && |s.mem[p]| == NPT
             && p in t.mem && t.mem[p] == s.mem[p][vp % NPT := w]
             && forall f :: f in s.use && IsTree(s.use[f]) && f != p ==> f in t.mem && t.mem[f] == s.mem[f]
    ensures forall vq :: 0 <= vq < PAGES ==> Entry(t.mem, d, vq) == if vq == vp then w else Entry(s.mem, d, vq)
  {
    forall vq | 0 <= vq < PAGES ensures Entry(t.mem, d, vq) == if vq == vp then w else Entry(s.mem, d, vq) {
      assert TableOk(s, d, vq / NPT);
    }
  }

  /** deallocuvm: the frame of a present user page is freed, then its entry zeroed. */
  lemma EntryCleared(s: State, t: State, d: int, vp: int)
    requires Inv(s) && IsDir(s, d) && 0 <= vp < KERNPAGES && Present(Entry(s.mem, d, vp))
    requires TableOk(s, d, vp / NPT) && Present(s.mem[d][vp / NPT])
    requires var p, f := Frame(s.mem[d][vp / NPT]), Frame(Entry(s.mem, d, vp));
             && f in s.use && p in Given(s, f).mem && |Given(s, f).mem[p]| == NPT
             && t == Given(s, f).(mem := Given(s, f).mem[p := Given(s, f).mem[p][vp % NPT := 0]])
    ensures Inv(t)
    ensures forall vq :: 0 <= vq < PAGES ==> Entry(t.mem, d, vq) == if vq == vp then 0 else Entry(s.mem, d, vq)
  {
    var f := Frame(Entry(s.mem, d, vp));
    assert PageOk(s, d, vp);
    GivePool(s, f);
    forall k | 0 <= k < |t.free| ensures LinkedAt(t, k) { assert LinkedAt(Given(s, f), k); }
    EntryWritten(s, t, d, vp, 0);
    OthersSame(s, t, d);
    forall i | 0 <= i < NPT ensures TableOk(t, d, i) { assert TableOk(s, d, i); }
    forall vq | 0 <= vq < KERNPAGES ensures PageOk(t, d, vq) { assert PageOk(s, d, vq); }
    forall g | g in t.use ensures UseOk(t, g) { assert UseOk(s, g); }
  }

  /** A directory without user pages comes apart: it and its tables are in hand. */
  lemma Dismantle(s: State, t: State, d: int)
    requires Inv(s) && IsDir(s, d) && forall vp :: 0 <= vp < KERNPAGES ==> !Present(Entry(s.mem, d, vp))
    requires t == s.(use := map f | f in s.use :: if InTree(s.use[f], f, d) then Kernel else s.use[f])
    ensures Inv(t)
  {
    forall k | 0 <= k < |t.free| ensures LinkedAt(t, k) { assert LinkedAt(s, k); }
    forall f | f in s.use && s.use[f].User? ensures s.use[f].d != d { assert UseOk(s, f); }
    OthersSame(s, t, d);
    forall f | f in t.use ensures UseOk(t, f) { assert UseOk(s, f); }
  }
}
