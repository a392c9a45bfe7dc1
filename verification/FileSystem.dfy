/** balloc, bfree, bmap, itrunc, readi and writei. */
module FileSystem {
  import opened Inodes
  import opened Numbers

  const BPB := 4096      // bitmap bits per block

  datatype Address = At(b: int) | Panic(message: string)

  datatype Transfer =
    | Refused                  // returns -1
    | Moved(data: seq<int>)    // the bytes read or written
    | Crashed                  // panic: out of blocks

  /** `c` with the bytes `s` written over it at `off`. */
  function Splice(c: seq<int>, off: int, s: seq<int>): seq<int>
    requires 0 <= off <= |c|
  {
    c[..off] + s + if off + |s| <= |c| then c[off + |s|..] else []
  }

  /** A fresh block becomes the next direct one of file `i`. */
  lemma DirectAppended(s0: State, s: State, t: State, loose: set<int>, i: int, b: int)
    requires Core(s0) && i in s0.files && s0.nb[i] < NDIRECT
    requires b !in loose && Inv(s, loose + {b}) && s0 == s.(used := s0.used, disk := s0.disk)
    requires forall j :: j in s0.files ==> FileKept(s0, s, j)
    requires var k := s.nb[i];
             t == s.(files := s.files[i := s.files[i].(addrs := s.files[i].addrs[k := b])],
                     owner := s.owner[b := Owner(i, k)], nb := s.nb[i := k + 1])
    ensures Inv(t, loose) && Grows(s0, t, i) && t.nb[i] == s.nb[i] + 1
    ensures SlotOk(t, i, s.nb[i]) && Slot(t.disk, t.files[i], s.nb[i]) == b
  {
    LinkDirect(s, loose + {b}, i, b);
    assert loose + {b} - {b} == loose;
    assert FileKept(s0, s, i) && Grows(s0, s, i) && Grows(s, t, i);
    GrowsTransitive(s0, s, t, i);
    assert SlotOk(t, i, s.nb[i]) && OwnedOk(t, b);
  }

  /** A fresh block becomes the next one named by file `i`'s indirect block. */
  lemma WordAppended(s0: State, s: State, t: State, loose: set<int>, i: int, b: int)
    requires Core(s0) && i in s0.files && NDIRECT <= s0.nb[i] < MAXFILE
    requires s0.files[i].addrs[NDIRECT] != 0
    requires b !in loose && Inv(s, loose + {b}) && s0 == s.(used := s0.used, disk := s0.disk)
    requires forall j :: j in s0.files ==> FileKept(s0, s, j)
    requires var k, ind := s.nb[i], s.files[i].addrs[NDIRECT];
             && ind in s.disk && |s.disk[ind]| == BSIZE
             && t == s.(disk := s.disk[ind := SetWord(s.disk[ind], k - NDIRECT, b)],
                        owner := s.owner[b := Owner(i, k)], nb := s.nb[i := k + 1], early := s.early - {i})
    ensures Inv(t, loose) && Grows(s0, t, i) && t.nb[i] == s.nb[i] + 1
    ensures SlotOk(t, i, s.nb[i]) && Slot(t.disk, t.files[i], s.nb[i]) == b
  {
    LinkWord(s, t, loose + {b}, i, b);
    var k := s.nb[i];
    assert loose + {b} - {b} == loose;
    assert FileKept(s0, s, i) && Grows(s0, s, i) && Grows(s, t, i);
    GrowsTransitive(s0, s, t, i);
    assert SlotOk(t, i, k);
    assert OwnedOk(t, b);
  }

  lemma TakeBack(s: set<int>, b: int)
    requires b !in s
    ensures s + {b} - {b} == s
  {
  }

  lemma SameUpdate(m: map<int, Inode>, i: int)
    requires i in m
    ensures m[i := m[i]] == m
  {
  }

  lemma UpdateTwice(m: map<int, Inode>, i: int, x: Inode, y: Inode)
    ensures m[i := x][i := y] == m[i := y]
  {
  }

  // ----- itrunc -----

  /** The blocks of file `i` in slots below `k` are freed, and nothing else is; `loose`
      are in the hands of other operations. */
  ghost predicate Held(s: State, loose: set<int>, i: int, used: seq<bool>, k: int)
    requires Core(s) && i in s.files
  {
    && Inv(Without(s, i).(used := used), loose + BlocksOf(s, i, k))
    && forall j {:trigger FileKept(s, Without(s, i).(used := used), j)} ::
         j in s.files && j != i ==> FileKept(s, Without(s, i).(used := used), j)
  }

  lemma HeldAtFirst(s: State, loose: set<int>, i: int)
    requires Inv(s, loose) && i in s.files
    ensures Held(s, loose, i, s.used, 0)
  {
    DetachKeeps(s, loose, i);
  }

  /** The next block to be freed is marked, and freeing it is right. */
  lemma HeldNext(s: State, loose: set<int>, i: int, used: seq<bool>, k: int)
    requires Inv(s, loose) && i in s.files && 0 <= k <= MAXFILE && Held(s, loose, i, used, k)
    ensures var b := Slot(s.disk, s.files[i], k);
            if b == 0 then Held(s, loose, i, used, k + 1)
            else 0 < b < s.size == |used| && used[b] && Held(s, loose, i, used[b := false], k + 1)
  {
    NextBlock(s, i, k);
    var b := Slot(s.disk, s.files[i], k);
    if b != 0 {
      var g := Without(s, i).(used := used);
      FreeKeeps(g, loose + BlocksOf(s, i, k), b);
      assert loose + BlocksOf(s, i, k) - {b} == loose + BlocksOf(s, i, k + 1);
      var h := g.(used := used[b := false]);
      assert h == Without(s, i).(used := used[b := false]);
      forall j | j in s.files && j != i ensures FileKept(s, h, j) {
        assert FileKept(s, g, j) && FileKept(g, h, j);
      }
    }
  }

  /** Without an indirect block there is nothing behind the direct ones. */
  lemma HeldDirect(s: State, loose: set<int>, i: int, used: seq<bool>)
    requires Inv(s, loose) && i in s.files && Held(s, loose, i, used, NDIRECT) && s.files[i].addrs[NDIRECT] == 0
    ensures Held(s, loose, i, used, MAXFILE + 1)
  {
    forall b | b in s.owner && s.owner[b].inum == i ensures s.owner[b].slot < NDIRECT {
      assert OwnedOk(s, b);
    }
    assert BlocksOf(s, i, NDIRECT) == BlocksOf(s, i, MAXFILE + 1);
  }

  /** Exactly the blocks of file `i` have become free. */
  ghost predicate Frees(s: State, t: State, i: int) {
    |s.used| == |t.used| && forall b :: 0 <= b < |s.used| ==> (t.used[b] <==> s.used[b] && b !in BlocksOf(s, i, 0))
  }

  /** With all blocks freed, an empty inode can take the file's place. */
  lemma Truncated(s: State, t: State, loose: set<int>, i: int)
    requires Inv(s, loose) && i in s.files && Held(s, loose, i, t.used, MAXFILE + 1)
    requires t == s.(used := t.used, files := s.files[i := Inode(seq(NDIRECT + 1, _ => 0), 0)],
                     owner := s.owner - BlocksOf(s, i, 0), nb := s.nb[i := 0], early := s.early - {i})
    ensures Inv(t, loose) && OthersKept(s, t, i) && SizeOk(t, i) && Contents(t, i) == []
    ensures Frees(s, t, i)
  {
    NoneLeft(s, i);
    var g := Without(s, i).(used := t.used);
    assert loose + BlocksOf(s, i, MAXFILE + 1) == loose;
    AttachKeeps(g, loose, i, t.files[i]);
    assert t == g.(files := g.files[i := t.files[i]], nb := g.nb[i := 0]);
    forall j | j in s.files && j != i ensures FileKept(s, t, j) {
      assert FileKept(s, g, j) && FileKept(g, t, j);
    }
    FreesBlocks(s, t, loose, i);
  }

  lemma FreesBlocks(s: State, t: State, loose: set<int>, i: int)
    requires Inv(s, loose) && Inv(t, loose) && t.size == s.size && t.reserved == s.reserved
    requires t.owner == s.owner - BlocksOf(s, i, 0)
    ensures Frees(s, t, i)
  {
    forall b | 0 <= b < |s.used| ensures t.used[b] <==> s.used[b] && b !in BlocksOf(s, i, 0) {
      assert s.used[b] <==> b in s.reserved || b in s.owner || b in loose;
    }
  }

  /** Addresses below `k` have been set to 0 in file `i`. */
  ghost predicate Cleared(before: map<int, Inode>, after: map<int, Inode>, i: int, k: int)
  {
    && i in before && i in after && after == before[i := after[i]]
    && |before[i].addrs| == |after[i].addrs| == NDIRECT + 1 && after[i].size == before[i].size
    && forall m :: 0 <= m <= NDIRECT ==> after[i].addrs[m] == if m < k then 0 else before[i].addrs[m]
  }

  lemma AllCleared(before: map<int, Inode>, after: map<int, Inode>, i: int)
    requires Cleared(before, after, i, NDIRECT + 1)
    ensures after == before[i := Inode(seq(NDIRECT + 1, _ => 0), before[i].size)]
  {
    assert after[i].addrs == seq(NDIRECT + 1, _ => 0);
  }

  /** A turn of readi's loop reads the next `m` bytes of the file. */
  lemma ReadOn(s: State, i: int, o: int, m: int)
    requires 0 <= o && Core(s) && i in s.files && SizeOk(s, i) && 0 <= m && o + m <= s.files[i].size
    requires o < s.files[i].size && o % BSIZE + m <= BSIZE
    ensures SlotOk(s, i, o / BSIZE)
    ensures var b := Slot(s.disk, s.files[i], o / BSIZE);
            && b in s.disk && |s.disk[b]| == BSIZE
            && s.disk[b][o % BSIZE..o % BSIZE + m] == Contents(s, i)[o..o + m]
  {
    var k := o / BSIZE;
    assert SlotOk(s, i, k);
    var part := s.disk[Slot(s.disk, s.files[i], k)][o % BSIZE..o % BSIZE + m];
    forall x | 0 <= x < m ensures part[x] == Contents(s, i)[o + x] {
      assert (o + x) / BSIZE == k && (o + x) % BSIZE == o % BSIZE + x;
    }
  }

  // ----- writei -----

  /** `src` has been written to file `i` from `off` up to `o`.  This speaks of file `i`
      alone: others may change meanwhile. */
  ghost predicate Written(s0: State, s: State, i: int, src: seq<int>, off: int, o: int)
    requires Core(s0) && i in s0.files && 0 <= off <= s0.nb[i] * BSIZE && off <= o <= off + |src|
  {
    && Core(s) && i in s.files && i !in s.early
    && s.files[i].size == s0.files[i].size
    && s.nb[i] == Max(s0.nb[i], Blocks(o))
    && (s.nb[i] == s0.nb[i] ==> s.files[i] == s0.files[i])
    && forall x :: 0 <= x < s.nb[i] * BSIZE && x < Max(s0.nb[i] * BSIZE, o) ==>
        ByteAt(s, i, x) == NewByte(s0, i, src, off, o, x)
  }

  /** A step of another process, which keeps file `i`, keeps what has been written. */
  lemma WrittenStable(s0: State, s: State, t: State, i: int, src: seq<int>, off: int, o: int)
    requires Core(s0) && i in s0.files && 0 <= off <= s0.nb[i] * BSIZE && off <= o <= off + |src|
    requires Written(s0, s, i, src, off, o) && FileKept(s, t, i) && i !in t.early
    ensures Written(s0, t, i, src, off, o)
  {
    forall x | 0 <= x < t.nb[i] * BSIZE && x < Max(s0.nb[i] * BSIZE, o)
      ensures ByteAt(t, i, x) == NewByte(s0, i, src, off, o, x)
    {
      assert ByteAt(t, i, x) == ByteAt(s, i, x);
    }
  }

  ghost function NewByte(s0: State, i: int, src: seq<int>, off: int, o: int, x: int): int
    requires Core(s0) && i in s0.files && 0 <= off <= s0.nb[i] * BSIZE && off <= o <= off + |src|
    requires 0 <= x < Max(s0.nb[i] * BSIZE, o)
  {
    if off <= x < o then src[x - off] else ByteAt(s0, i, x)
  }

  /** One turn of writei's loop: bmap takes `s` to `t`, and `m` bytes are copied. */
  lemma WriteOn(s0: State, s: State, t: State, u: State, loose: set<int>, i: int,
                src: seq<int>, off: int, o: int, m: int)
    requires Core(s0) && i in s0.files && 0 <= off <= s0.files[i].size && off <= s0.nb[i] * BSIZE
    requires off <= o < off + |src| <= MAXFILE * BSIZE
    requires Written(s0, s, i, src, off, o)
    requires Inv(t, loose) && i !in t.early && Grows(s, t, i)
    requires o / BSIZE < s.nb[i] ==> t == s
    requires o / BSIZE == s.nb[i] ==> t.nb[i] == o / BSIZE + 1
    requires m == Min(off + |src| - o, BSIZE - o % BSIZE)
    requires var b := Slot(t.disk, t.files[i], o / BSIZE);
             && b in t.disk && |t.disk[b]| == BSIZE
             && u == t.(disk := t.disk[b := Splice(t.disk[b], o % BSIZE, src[o - off..o - off + m])])
    ensures 0 < m && Inv(u, loose) && OthersKept(s, u, i) && Written(s0, u, i, src, off, o + m)
  {
    var k := o / BSIZE;
    assert SlotOk(t, i, k);
    WriteKeeps(t, loose, i, k, u.disk[Slot(t.disk, t.files[i], k)]);
    forall j | j in s.files && j != i ensures FileKept(s, u, j) {
      assert FileKept(s, t, j) && FileKept(t, u, j);
    }
    forall x | 0 <= x < u.nb[i] * BSIZE && x < Max(s0.nb[i] * BSIZE, o + m)
      ensures ByteAt(u, i, x) == NewByte(s0, i, src, off, o + m, x)
    {
      WriteByte(s0, s, t, u, i, src, off, o, m, x);
    }
  }

  lemma WriteByte(s0: State, s: State, t: State, u: State, i: int, src: seq<int>, off: int, o: int, m: int, x: int)
    requires Core(s0) && i in s0.files && 0 <= off <= s0.nb[i] * BSIZE && off <= o < off + |src|
    requires Written(s0, s, i, src, off, o) && Grows(s, t, i) && Core(u) && i in u.files && u.nb[i] == t.nb[i]
    requires m == Min(off + |src| - o, BSIZE - o % BSIZE) && o / BSIZE < t.nb[i] == Max(s.nb[i], o / BSIZE + 1)
    requires SlotOk(t, i, o / BSIZE)
    requires var b := Slot(t.disk, t.files[i], o / BSIZE);
             && b in t.disk && |t.disk[b]| == BSIZE
             && var blk := Splice(t.disk[b], o % BSIZE, src[o - off..o - off + m]);
                && |blk| == BSIZE
                && forall x :: 0 <= x < t.nb[i] * BSIZE ==>
                     ByteAt(u, i, x) == if x / BSIZE == o / BSIZE then blk[x % BSIZE] else ByteAt(t, i, x)
    requires 0 <= x < u.nb[i] * BSIZE && x < Max(s0.nb[i] * BSIZE, o + m)
    ensures ByteAt(u, i, x) == NewByte(s0, i, src, off, o + m, x)
  {
    var b := Slot(t.disk, t.files[i], o / BSIZE);
    var chunk := src[o - off..o - off + m];
    var blk := Splice(t.disk[b], o % BSIZE, chunk);
    if o <= x < o + m {
      assert blk[x % BSIZE] == chunk[x - o];
    } else {
      if x / BSIZE == o / BSIZE { assert blk[x % BSIZE] == t.disk[b][x % BSIZE] == ByteAt(t, i, x); }
      assert ByteAt(u, i, x) == ByteAt(t, i, x);
      assert x < s.nb[i] * BSIZE;
      assert ByteAt(s, i, x) == NewByte(s0, i, src, off, o, x);
    }
  }

  /** The size is brought up to date. */
  lemma WriteDone(s0: State, s: State, t: State, loose: set<int>, i: int, src: seq<int>, off: int)
    requires Core(s0) && i in s0.files && SizeOk(s0, i) && 0 <= off <= s0.files[i].size && off <= s0.nb[i] * BSIZE
    requires off + |src| <= MAXFILE * BSIZE && Inv(s, loose) && Written(s0, s, i, src, off, off + |src|)
    requires t == s.(files := s.files[i := s.files[i].(size := Max(s0.files[i].size, off + |src|))])
    ensures Inv(t, loose) && OthersKept(s, t, i) && SizeOk(t, i)
    ensures off + |src| <= s0.files[i].size ==> t.files == s.files && t.files[i] == s0.files[i]
    ensures Contents(t, i) == Splice(Contents(s0, i), off, src)
  {
    Resized(s, t, loose, i);
    if off + |src| <= s0.files[i].size {
      assert s.nb[i] == s0.nb[i] && s.files[i] == s0.files[i];
      assert t.files == s.files;
    }
    ContentsSpliced(s0, s, t, i, src, off);
  }

  lemma ContentsSpliced(s0: State, s: State, t: State, i: int, src: seq<int>, off: int)
    requires Core(s0) && i in s0.files && SizeOk(s0, i) && 0 <= off <= s0.files[i].size && off <= s0.nb[i] * BSIZE
    requires off + |src| <= MAXFILE * BSIZE && Written(s0, s, i, src, off, off + |src|)
    requires Core(t) && i in t.files && SizeOk(t, i) && t.nb[i] == s.nb[i]
    requires t.files[i].size == Max(s0.files[i].size, off + |src|)
    requires forall x :: 0 <= x < s.nb[i] * BSIZE ==> ByteAt(t, i, x) == ByteAt(s, i, x)
    ensures Contents(t, i) == Splice(Contents(s0, i), off, src)
  {
    var c, d := Contents(s0, i), Contents(t, i);
    forall x | 0 <= x < |d| ensures d[x] == Splice(c, off, src)[x] {
      assert ByteAt(t, i, x) == ByteAt(s, i, x);
    }
  }

  lemma Resized(s: State, t: State, loose: set<int>, i: int)
    requires Inv(s, loose) && i in s.files && i in t.files
    requires t == s.(files := s.files[i := s.files[i].(size := t.files[i].size)])
    ensures Inv(t, loose) && OthersKept(s, t, i)
    ensures forall x :: 0 <= x < s.nb[i] * BSIZE ==> ByteAt(t, i, x) == ByteAt(s, i, x)
  {
    forall j, k | j in s.files && 0 <= k <= MAXFILE ensures SlotOk(t, j, k) { assert SlotOk(s, j, k); }
    forall b | b in s.owner ensures OwnedOk(t, b) { assert OwnedOk(s, b); }
    forall x | 0 <= x < s.nb[i] * BSIZE ensures ByteAt(t, i, x) == ByteAt(s, i, x) {
      assert SlotOk(s, i, x / BSIZE);
    }
    forall j | j in s.files && j != i ensures FileKept(s, t, j) {
      forall x | 0 <= x < s.nb[j] * BSIZE ensures ByteAt(t, j, x) == ByteAt(s, j, x) {
        assert SlotOk(s, j, x / BSIZE);
      }
    }
  }

  /** A call may come at any moment of other calls on other files: those may be half
      written, and blocks may be in the hands of other operations.  Only the file the
      call is for, which its inode lock protects, is between operations. */
  class FileSystem {
    const size: nat
    ghost const reserved: set<int>
    /** The free map, one entry a bit. */
    var used: seq<bool>
    /** Blocks as the buffer cache shows them. */
    var disk: Disk
    /** Inodes in memory, and as iupdate last wrote them. */
    var files: map<int, Inode>
    var dinodes: map<int, Inode>
    ghost var owner: map<int, Owner>
    ghost var nb: map<int, int>
    ghost var early: set<int>
    /** Blocks marked by balloc and not yet part of a file. */
    ghost var loose: set<int>

    ghost function S(): State
      reads this
    {
      State(size, reserved, used, disk, files, owner, nb, early)
    }

    /** Mounts a consistent image. */
    constructor (image: State)
      requires Settled(image)
      ensures Valid() && S() == image && loose == {} && forall i :: i in files ==> Ready(i)
    {
      size, reserved := image.size, image.reserved;
      used, disk, files, dinodes := image.used, image.disk, image.files, image.files;
      owner, nb, early, loose := image.owner, image.nb, image.early, {};
    }

    /** balloc has nothing to give. */
    predicate AllUsed()
      reads this`used
    {
      forall b :: 0 <= b < size && b < |used| ==> used[b]
    }

    ghost predicate Valid()
      reads this
    {
      Inv(S(), loose) && dinodes.Keys == files.Keys
    }

    /** File `i` is between operations, and so is its inode on disk. */
    ghost predicate Ready(i: int)
      requires Valid()
      reads this
    {
      i in files && i !in early && SizeOk(S(), i) && dinodes[i] == files[i]
    }

    /** With every file between operations and no block in hand, the whole is settled. */
    lemma AllReady()
      requires Valid() && loose == {} && early <= files.Keys && forall i :: i in files ==> Ready(i)
      ensures Settled(S()) && dinodes == files
    {
      forall i | i in files ensures SizeOk(S(), i) { assert Ready(i); }
      forall i | i in dinodes ensures i in files && dinodes[i] == files[i] {
        assert i in dinodes.Keys;
        assert Ready(i);
      }
      forall i | i in files ensures i !in early { assert Ready(i); }
      assert early == {};
      forall i | i in files ensures i in dinodes { assert i in files.Keys; }
      assert dinodes == files;
    }

    /** The first free block, marked and zeroed, is in hand. */
    method Balloc() returns (r: Address)
      requires Valid()
      modifies this`used, this`disk, this`loose
      ensures r.Panic? ==> S() == old(S()) && loose == old(loose) && AllUsed()
      ensures r.At? ==>
        && 0 < r.b < size && !old(used)[r.b] && r.b !in old(loose) && loose == old(loose) + {r.b}
        && (forall c :: 0 <= c < r.b ==> old(used)[c])
        && used == old(used)[r.b := true] && disk == old(disk)[r.b := Zeros()]
        && Valid() && forall j :: j in files ==> FileKept(old(S()), S(), j)
    {
      var b := 0;
      while b < size
        invariant 0 <= b && S() == old(S()) && loose == old(loose)
        invariant forall c :: 0 <= c < size && c < b ==> used[c]
        decreases size - b
      {
        var bi := 0;
        while bi < BPB && b + bi < size
          invariant 0 <= bi <= BPB && S() == old(S()) && loose == old(loose)
          invariant forall c :: 0 <= c < size && c < b + bi ==> used[c]
        {
          if !used[b + bi] {
            AllocKeeps(S(), loose, b + bi);
            used := used[b + bi := true];
            disk := disk[b + bi := Zeros()];
            loose := loose + {b + bi};
            return At(b + bi);
          }
          bi := bi + 1;
        }
        b := b + BPB;
      }
      return Panic("balloc: out of blocks");
    }

    method Bfree(b: int) returns (panic: bool)
      requires 0 <= b < size == |used|
      modifies this`used
      ensures panic <==> !old(used)[b]
      ensures used == if panic then old(used) else old(used)[b := false]
    {
      if !used[b] { return true; }
      used := used[b := false];
      return false;
    }

    method Iupdate(i: int)
      requires i in files
      modifies this`dinodes
      ensures dinodes == old(dinodes)[i := files[i]]
    {
      dinodes := dinodes[i := files[i]];
    }

    /** The disk block of block `bn` of a file, appended if it is the next one. */
    method Bmap(i: int, bn: int) returns (r: Address)
      requires Valid() && i in files && i !in early && 0 <= bn <= nb[i]
      modifies this`used, this`disk, this`files, this`owner, this`nb, this`early, this`loose
      ensures r.Panic? ==> bn >= MAXFILE || (bn == old(nb)[i] && AllUsed())
      ensures r.At? ==>
        && Valid() && early == old(early) && loose == old(loose) && Grows(old(S()), S(), i)
        && nb[i] == (if bn < old(nb)[i] then old(nb)[i] else bn + 1)
        && r.b == Slot(disk, files[i], bn) && SlotOk(S(), i, bn)
      ensures bn < old(nb)[i] ==> r.At? && S() == old(S()) && loose == old(loose)
    {
      assert bn < MAXFILE ==> SlotOk(S(), i, bn);
      if bn < NDIRECT {
        if files[i].addrs[bn] == 0 {
          r := AppendDirect(i, bn);
          return;
        }
        return At(files[i].addrs[bn]);
      }
      if bn - NDIRECT < NINDIRECT {
        r := ThroughIndirect(i, bn);
        return;
      }
      return Panic("bmap: out of range");
    }

    method ThroughIndirect(i: int, bn: int) returns (r: Address)
      requires Valid() && i in files && i !in early && NDIRECT <= bn <= nb[i] && bn < MAXFILE
      modifies this`used, this`disk, this`files, this`owner, this`nb, this`early, this`loose
      ensures r.Panic? ==> bn == old(nb)[i] && AllUsed()
      ensures r.At? ==>
        && Valid() && early == old(early) && loose == old(loose) && Grows(old(S()), S(), i)
        && nb[i] == (if bn < old(nb)[i] then old(nb)[i] else bn + 1)
        && r.b == Slot(disk, files[i], bn) && SlotOk(S(), i, bn)
      ensures bn < old(nb)[i] ==> r.At? && S() == old(S()) && loose == old(loose)
    {
      ghost var s0 := S();
      assert SlotOk(s0, i, MAXFILE) && SlotOk(s0, i, bn);
      if files[i].addrs[NDIRECT] == 0 {
        var added := AddIndirect(i);
        if added.Panic? { return added; }
      }
      ghost var s1 := S();
      assert SlotOk(s1, i, MAXFILE) && SlotOk(s1, i, bn);
      var ind := files[i].addrs[NDIRECT];
      var addr := Word(disk[ind], bn - NDIRECT);
      if addr == 0 {
        r := AppendWord(i, bn);
        if r.At? { GrowsTransitive(s0, s1, S(), i); }
        return;
      }
      return At(addr);
    }

    method AppendDirect(i: int, bn: int) returns (r: Address)
      requires Valid() && i in files && bn == nb[i] < NDIRECT
      modifies this`used, this`disk, this`files, this`owner, this`nb, this`loose
      ensures r.Panic? ==> AllUsed()
      ensures r.At? ==>
        && Valid() && loose == old(loose) && Grows(old(S()), S(), i) && nb[i] == bn + 1
        && r.b == Slot(disk, files[i], bn) && SlotOk(S(), i, bn)
    {
      ghost var s0 := S();
      r := Balloc();
      if r.Panic? { return; }
      ghost var s1 := S();
      files := files[i := files[i].(addrs := files[i].addrs[bn := r.b])];
      owner := owner[r.b := Owner(i, bn)];
      nb := nb[i := bn + 1];
      TakeBack(old(loose), r.b);
      loose := loose - {r.b};
      DirectAppended(s0, s1, S(), loose, i, r.b);
    }

    method AddIndirect(i: int) returns (r: Address)
      requires Valid() && i in files && i !in early && nb[i] == NDIRECT
      modifies this`used, this`disk, this`files, this`owner, this`early, this`loose
      ensures r.Panic? ==> AllUsed()
      ensures r.At? ==>
        && Valid() && early == old(early) + {i} && loose == old(loose) && Grows(old(S()), S(), i)
        && files[i].addrs[NDIRECT] == r.b != 0
    {
      ghost var s0 := S();
      r := Balloc();
      if r.Panic? { return; }
      ghost var s1 := S();
      LinkIndirect(s1, loose, i, r.b);
      files := files[i := files[i].(addrs := files[i].addrs[NDIRECT := r.b])];
      owner := owner[r.b := Owner(i, MAXFILE)];
      early := early + {i};
      TakeBack(old(loose), r.b);
      loose := loose - {r.b};
      GrowsTransitive(s0, s1, S(), i);
    }

    method AppendWord(i: int, bn: int) returns (r: Address)
      requires Valid() && i in files && NDIRECT <= bn == nb[i] < MAXFILE
      requires files[i].addrs[NDIRECT] != 0
      modifies this`used, this`disk, this`owner, this`nb, this`early, this`loose
      ensures r.Panic? ==> AllUsed()
      ensures r.At? ==>
        && Valid() && early == old(early) - {i} && loose == old(loose) && Grows(old(S()), S(), i) && nb[i] == bn + 1
        && r.b == Slot(disk, files[i], bn) && SlotOk(S(), i, bn)
    {
      ghost var s0 := S();
      r := Balloc();
      if r.Panic? { return; }
      ghost var s1 := S();
      assert SlotOk(s1, i, MAXFILE);
      var ind := files[i].addrs[NDIRECT];
      disk := disk[ind := SetWord(disk[ind], bn - NDIRECT, r.b)];
      owner := owner[r.b := Owner(i, bn)];
      nb := nb[i := bn + 1];
      early := early - {i};
      TakeBack(old(loose), r.b);
      loose := loose - {r.b};
      WordAppended(s0, s1, S(), loose, i, r.b);
    }

    /** Frees the blocks of a file; "freeing free block" cannot happen. */
    method Itrunc(i: int) returns (panic: bool)
      requires Valid() && i in files
      modifies this`used, this`files, this`dinodes, this`owner, this`nb, this`early
      ensures !panic && Valid() && Ready(i)
      ensures files[i] == Inode(seq(NDIRECT + 1, _ => 0), 0) && Contents(S(), i) == []
      ensures OthersKept(old(S()), S(), i) && dinodes == old(dinodes)[i := files[i]] && early == old(early) - {i}
      ensures Frees(old(S()), S(), i)
    {
      ghost var s0 := S();
      panic := FreeAll(i, s0);
      UpdateTwice(s0.files, i, files[i], files[i].(size := 0));
      files := files[i := files[i].(size := 0)];
      owner := owner - BlocksOf(s0, i, 0);
      nb := nb[i := 0];
      early := early - {i};
      Iupdate(i);
      Truncated(s0, S(), loose, i);
    }

    /** All blocks are freed and all addresses are 0. */
    method FreeAll(i: int, ghost s0: State) returns (panic: bool)
      requires Inv(s0, loose) && i in s0.files && S() == s0
      modifies this`used, this`files
      ensures !panic && Freeing(s0) && Held(s0, loose, i, used, MAXFILE + 1)
      ensures files == s0.files[i := Inode(seq(NDIRECT + 1, _ => 0), s0.files[i].size)]
    {
      panic := FreeDirect(i, s0);
      if files[i].addrs[NDIRECT] != 0 {
        var p := FreeIndirect(i, s0);
        panic := panic || p;
        files := files[i := files[i].(addrs := files[i].addrs[NDIRECT := 0])];
      } else {
        HeldDirect(s0, loose, i, used);
      }
      AllCleared(s0.files, files, i);
    }

    /** While itrunc frees blocks, only the free map and the inode change. */
    ghost predicate Freeing(s0: State)
      reads this
    {
      && disk == s0.disk && owner == s0.owner && nb == s0.nb && early == s0.early
      && size == s0.size && reserved == s0.reserved
    }

    method FreeDirect(i: int, ghost s0: State) returns (panic: bool)
      requires Inv(s0, loose) && i in s0.files && Freeing(s0) && used == s0.used && files == s0.files
      modifies this`used, this`files
      ensures !panic && Freeing(s0) && |used| == size && Held(s0, loose, i, used, NDIRECT)
      ensures Cleared(s0.files, files, i, NDIRECT)
    {
      HeldAtFirst(s0, loose, i);
      panic := false;
      var k := 0;
      while k < NDIRECT
        invariant 0 <= k <= NDIRECT && !panic && Freeing(s0)
        invariant |used| == size && Held(s0, loose, i, used, k)
        invariant Cleared(s0.files, files, i, k)
      {
        HeldNext(s0, loose, i, used, k);
        if files[i].addrs[k] != 0 {
          var p := Bfree(files[i].addrs[k]);
          panic := panic || p;
          files := files[i := files[i].(addrs := files[i].addrs[k := 0])];
        }
        k := k + 1;
      }
    }

    method FreeIndirect(i: int, ghost s0: State) returns (panic: bool)
      requires Inv(s0, loose) && i in s0.files && Freeing(s0) && |used| == size && Held(s0, loose, i, used, NDIRECT)
      requires Cleared(s0.files, files, i, NDIRECT) && files[i].addrs[NDIRECT] != 0
      modifies this`used
      ensures !panic && Held(s0, loose, i, used, MAXFILE + 1)
    {
      var ind := files[i].addrs[NDIRECT];
      assert SlotOk(s0, i, MAXFILE);
      panic := false;
      var j := 0;
      while j < NINDIRECT
        invariant 0 <= j <= NINDIRECT && !panic
        invariant |used| == size && Held(s0, loose, i, used, NDIRECT + j)
      {
        HeldNext(s0, loose, i, used, NDIRECT + j);
        if Word(disk[ind], j) != 0 {
          var p := Bfree(Word(disk[ind], j));
          panic := panic || p;
        }
        j := j + 1;
      }
      HeldNext(s0, loose, i, used, MAXFILE);
      var p := Bfree(ind);
      panic := panic || p;
    }

    /** One turn of the loop: the bytes from `o` on in its block, at most `n` of them. */
    method CopyOut(i: int, o: int, n: int) returns (part: seq<int>, m: int)
      requires Valid() && Ready(i) && 0 <= o && 0 < n && o + n <= files[i].size
      modifies this`used, this`disk, this`files, this`owner, this`nb, this`early, this`loose
      ensures S() == old(S()) && loose == old(loose)
      ensures m == Min(n, BSIZE - o % BSIZE) && part == Contents(S(), i)[o..o + m]
    {
      m := Min(n, BSIZE - o % BSIZE);
      ReadOn(S(), i, o, m);
      var a := Bmap(i, o / BSIZE);
      part := disk[a.b][o % BSIZE..o % BSIZE + m];
    }

    /** At most `n` bytes from `off` on. */
    method Readi(i: int, off: int, n: int) returns (r: Transfer)
      requires Valid() && Ready(i) && 0 <= off < UINT && 0 <= n < UINT
      modifies this`used, this`disk, this`files, this`owner, this`nb, this`early, this`loose
      ensures S() == old(S()) && loose == old(loose)
      ensures r == if off > files[i].size || off + n >= UINT then Refused
                   else Moved(Contents(S(), i)[off..Min(off + n, files[i].size)])
    {
      if off > files[i].size || (off + n) % UINT < off { return Refused; }
      var todo := if off + n > files[i].size then files[i].size - off else n;
      ghost var s0, c := S(), Contents(S(), i);
      assert SizeOk(s0, i) && |c| == files[i].size;
      var tot, o, data := 0, off, [];
      while tot < todo
        invariant 0 <= tot <= todo && o == off + tot && S() == s0 && loose == old(loose)
        invariant data == c[off..o]
      {
        var part, m := CopyOut(i, o, todo - tot);
        data := data + part;
        assert c[off..o] + c[o..o + m] == c[off..o + m];
        tot, o := tot + m, o + m;
      }
      return Moved(data);
    }

    /** Bytes `o - off` on of `src` go into the block at `o`. */
    method CopyIn(i: int, src: seq<int>, off: int, o: int, ghost s0: State) returns (ok: bool, m: int)
      requires Core(s0) && i in s0.files && SizeOk(s0, i) && Valid()
      requires 0 <= off <= s0.files[i].size && off <= s0.nb[i] * BSIZE && off <= o < off + |src| <= MAXFILE * BSIZE
      requires Written(s0, S(), i, src, off, o)
      modifies this`used, this`disk, this`files, this`owner, this`nb, this`early, this`loose
      ensures !ok ==> AllUsed()
      ensures m == Min(off + |src| - o, BSIZE - o % BSIZE) && m > 0
      ensures ok ==>
        && Valid() && loose == old(loose) && early == old(early) && OthersKept(old(S()), S(), i)
        && Written(s0, S(), i, src, off, o + m)
    {
      m := Min(off + |src| - o, BSIZE - o % BSIZE);
      ghost var s := S();
      var a := Bmap(i, o / BSIZE);
      if a.Panic? { return false, m; }
      ghost var t := S();
      disk := disk[a.b := Splice(disk[a.b], o % BSIZE, src[o - off..o - off + m])];
      WriteOn(s0, s, t, S(), loose, i, src, off, o, m);
      return true, m;
    }

    /** The loop of writei. */
    method CopyAll(i: int, src: seq<int>, off: int) returns (ok: bool)
      requires Valid() && Ready(i) && 0 <= off <= files[i].size && off + |src| <= MAXFILE * BSIZE
      modifies this`used, this`disk, this`files, this`owner, this`nb, this`early, this`loose
      ensures !ok ==> AllUsed()
      ensures ok ==>
        && Valid() && loose == old(loose) && early == old(early) && OthersKept(old(S()), S(), i)
        && Written(old(S()), S(), i, src, off, off + |src|)
    {
      ghost var s0 := S();
      var n, tot, o := |src|, 0, off;
      while tot < n
        invariant 0 <= tot <= n == |src| && o == off + tot
        invariant Valid() && loose == old(loose) && early == s0.early && OthersKept(s0, S(), i)
        invariant Written(s0, S(), i, src, off, o)
      {
        ghost var s := S();
        var fits, m := CopyIn(i, src, off, o, s0);
        if !fits { return false; }
        OthersTransitive(s0, s, S(), i);
        tot, o := tot + m, o + m;
      }
      return true;
    }

    /** Writes `src` at `off`, appending blocks as needed. */
    method Writei(i: int, src: seq<int>, off: int) returns (r: Transfer)
      requires Valid() && Ready(i) && 0 <= off < UINT && |src| < UINT
      modifies this`used, this`disk, this`files, this`dinodes, this`owner, this`nb, this`early, this`loose
      ensures r.Refused? <==> off > old(files)[i].size || off + |src| > MAXFILE * BSIZE
      ensures r.Refused? ==> S() == old(S()) && dinodes == old(dinodes) && loose == old(loose)
      ensures r.Crashed? ==> AllUsed()
      ensures r.Moved? ==>
        && r.data == src && Valid() && Ready(i) && OthersKept(old(S()), S(), i)
        && loose == old(loose) && early == old(early) && dinodes == old(dinodes)[i := files[i]]
        && Contents(S(), i) == Splice(Contents(old(S()), i), off, src)
    {
      if off > files[i].size || (off + |src|) % UINT < off { return Refused; }
      if off + |src| > MAXFILE * BSIZE { return Refused; }
      ghost var s0 := S();
      var ok := CopyAll(i, src, off);
      if !ok { return Crashed; }
      ghost var s1 := S();
      if |src| > 0 && off + |src| > files[i].size {
        files := files[i := files[i].(size := off + |src|)];
        Iupdate(i);
      }
      SameUpdate(old(dinodes), i);
      WriteDone(s0, s1, S(), loose, i, src, off);
      OthersTransitive(s0, s1, S(), i);
      return Moved(src);
    }
  }
}
