/** Files as lists of disk blocks: what an inode's addresses mean, and who owns
    which block. */
module Inodes {
  import opened Numbers

  const BSIZE := 512
  const NDIRECT := 12
  const NINDIRECT := 128        // BSIZE / sizeof(uint)
  const MAXFILE := 140          // NDIRECT + NINDIRECT
  const UINT := 0x1_0000_0000

  /** BSIZE bytes. */
  type Block = seq<int>

  type Disk = map<int, Block>

  /** `addrs` has NDIRECT data blocks and then the indirect block; 0 means none. */
  datatype Inode = Inode(addrs: seq<int>, size: int)

  function Zeros(): (b: Block) ensures |b| == BSIZE { seq(BSIZE, _ => 0) }

  // ----- 32-bit words in a block -----

  function Word(b: Block, j: int): int
    requires |b| == BSIZE && 0 <= j < NINDIRECT
  {
    Word32(b, 4 * j)
  }

  function SetWord(b: Block, j: int, v: int): (r: Block)
    requires |b| == BSIZE && 0 <= j < NINDIRECT
    ensures |r| == BSIZE
  {
    b[4*j := v % 0x100][4*j+1 := v / 0x100 % 0x100][4*j+2 := v / 0x1_0000 % 0x100][4*j+3 := v / 0x100_0000 % 0x100]
  }

  lemma WordSet(b: Block, j: int, v: int, k: int)
    requires |b| == BSIZE && 0 <= j < NINDIRECT && 0 <= k < NINDIRECT && 0 <= v < UINT
    ensures Word(SetWord(b, j, v), k) == if k == j then v else Word(b, k)
  {
    if k == j { Digits(v); }
  }

  lemma Digits(v: int)
    requires 0 <= v < UINT
    ensures v == v % 0x100 + 0x100 * (v / 0x100 % 0x100) + 0x1_0000 * (v / 0x1_0000 % 0x100)
                 + 0x100_0000 * (v / 0x100_0000 % 0x100)
  {
    var a := v / 0x100;
    var b := a / 0x100;
    assert b == v / 0x1_0000;
    var c := b / 0x100;
    assert c == v / 0x100_0000 && c < 0x100;
  }

  // ----- the blocks of a file -----

  /** Slots 0 .. MAXFILE - 1 are the file's blocks in order; slot MAXFILE is the
      indirect block. */
  function Slot(d: Disk, ip: Inode, k: int): int
    requires |ip.addrs| == NDIRECT + 1 && 0 <= k <= MAXFILE
  {
    if k < NDIRECT then ip.addrs[k]
    else if k == MAXFILE then ip.addrs[NDIRECT]
    else WordAt(d, ip.addrs[NDIRECT], k - NDIRECT)
  }

  function WordAt(d: Disk, b: int, j: int): int
    requires 0 <= j < NINDIRECT
  {
    if b != 0 && b in d && |d[b]| == BSIZE then Word(d[b], j) else 0
  }

  /** The slots in use by a file of `n` blocks. */
  predicate Needed(n: int, k: int) { if k == MAXFILE then n > NDIRECT else k < n }

  function Blocks(size: int): int { (size + BSIZE - 1) / BSIZE }

  /** A block belongs to one slot of one file. */
  datatype Owner = Owner(inum: int, slot: int)

  /** Everything about blocks and files.  `nb` is each file's number of blocks; a file
      in `early` has an indirect block ahead of its first use. */
  datatype State = State(
    size: nat, reserved: set<int>, used: seq<bool>, disk: Disk, files: map<int, Inode>,
    owner: map<int, Owner>, nb: map<int, int>, early: set<int>)

  ghost predicate Shape(s: State) {
    && |s.used| == s.size < UINT
    && (forall b :: 0 <= b < s.size ==> b in s.disk && |s.disk[b]| == BSIZE)
    && (forall i :: i in s.files ==> |s.files[i].addrs| == NDIRECT + 1 && i in s.nb && 0 <= s.nb[i] <= MAXFILE)
    && 0 in s.reserved
  }

  /** Slot `k` of file `i` is set exactly if the file needs it, and then it owns its
      block. */
  ghost predicate SlotOk(s: State, i: int, k: int)
    requires Shape(s) && i in s.files && 0 <= k <= MAXFILE
  {
    var b := Slot(s.disk, s.files[i], k);
    && (b != 0 <==> Needed(s.nb[i], k) || (k == MAXFILE && i in s.early))
    && (b != 0 ==> 0 < b < s.size && b in s.owner && s.owner[b] == Owner(i, k))
  }

  ghost predicate Slots(s: State)
    requires Shape(s)
  {
    forall i, k :: i in s.files && 0 <= k <= MAXFILE ==> SlotOk(s, i, k)
  }

  /** An owned block is the one its owner's slot names. */
  ghost predicate OwnedOk(s: State, b: int)
    requires Shape(s) && b in s.owner
  {
    var o := s.owner[b];
    o.inum in s.files && 0 <= o.slot <= MAXFILE && Slot(s.disk, s.files[o.inum], o.slot) == b
  }

  ghost predicate Owned(s: State)
    requires Shape(s)
  {
    && (forall b :: b in s.owner ==> 0 < b < s.size)
    && (forall b {:trigger OwnedOk(s, b)} :: b in s.owner ==> OwnedOk(s, b))
  }

  /** Each data or indirect block has exactly one owner. */
  ghost predicate Core(s: State) { Shape(s) && Slots(s) && Owned(s) }

  /** The bitmap marks the reserved and the owned blocks, and no others; `loose` are
      blocks in the hands of an operation. */
  ghost predicate Bitmap(s: State, loose: set<int>)
    requires Shape(s)
  {
    && (forall b :: 0 <= b < s.size ==> (s.used[b] <==> b in s.reserved || b in s.owner || b in loose))
    && (forall b :: b in s.owner || b in loose ==> b !in s.reserved)
    && (forall b :: b in loose ==> 0 < b < s.size && b !in s.owner)
  }

  ghost predicate Inv(s: State, loose: set<int>) { Core(s) && Bitmap(s, loose) }

  // ----- contents -----

  /** Byte `x` of a file. */
  ghost function ByteAt(s: State, i: int, x: int): int
    requires Core(s) && i in s.files && 0 <= x < s.nb[i] * BSIZE
  {
    assert SlotOk(s, i, x / BSIZE);
    s.disk[Slot(s.disk, s.files[i], x / BSIZE)][x % BSIZE]
  }

  /** The first `n` bytes of a file. */
  ghost function Bytes(s: State, i: int, n: int): (r: seq<int>)
    requires Core(s) && i in s.files && 0 <= n <= s.nb[i] * BSIZE
    ensures |r| == n && forall x :: 0 <= x < n ==> r[x] == ByteAt(s, i, x)
  {
    seq(n, x requires 0 <= x < n <= s.nb[i] * BSIZE && Core(s) && i in s.files => ByteAt(s, i, x))
  }

  ghost predicate SizeOk(s: State, i: int)
    requires Shape(s) && i in s.files
  {
    0 <= s.files[i].size <= MAXFILE * BSIZE && s.nb[i] == Blocks(s.files[i].size)
  }

  /** Between operations: no block in hand, block counts as the sizes say. */
  ghost predicate Settled(s: State) {
    && Inv(s, {}) && s.early == {}
    && forall i :: i in s.files ==> SizeOk(s, i)
  }

  ghost function Contents(s: State, i: int): seq<int>
    requires Core(s) && i in s.files && SizeOk(s, i)
  {
    Bytes(s, i, s.files[i].size)
  }

  /** File `j` is as it was, byte for byte. */
  ghost predicate FileKept(s: State, t: State, j: int) {
    && Core(s) && Core(t) && j in s.files && j in t.files
    && t.files[j] == s.files[j] && t.nb[j] == s.nb[j]
    && forall x :: 0 <= x < s.nb[j] * BSIZE ==> ByteAt(t, j, x) == ByteAt(s, j, x)
  }

  /** No file but `i` has changed. */
  ghost predicate OthersKept(s: State, t: State, i: int) {
    && s.files.Keys == t.files.Keys
    && forall j {:trigger FileKept(s, t, j)} :: j in s.files && j != i ==> FileKept(s, t, j)
  }

  /** Only file `i` may have changed, and only by having blocks appended. */
  ghost predicate Grows(s: State, t: State, i: int) {
    && Core(s) && Core(t) && i in s.files && OthersKept(s, t, i)
    && t.files[i].size == s.files[i].size && s.nb[i] <= t.nb[i]
    && forall x :: 0 <= x < s.nb[i] * BSIZE ==> ByteAt(t, i, x) == ByteAt(s, i, x)
  }

  lemma GrowsTransitive(s: State, t: State, u: State, i: int)
    requires Grows(s, t, i) && Grows(t, u, i)
    ensures Grows(s, u, i)
  {
    forall j | j in s.files && j != i ensures FileKept(s, u, j) {
      assert FileKept(s, t, j) && FileKept(t, u, j);
    }
  }

  lemma OthersTransitive(s: State, t: State, u: State, i: int)
    requires OthersKept(s, t, i) && OthersKept(t, u, i)
    ensures OthersKept(s, u, i)
  {
    forall j | j in s.files && j != i ensures FileKept(s, u, j) {
      assert FileKept(s, t, j) && FileKept(t, u, j);
    }
  }

  // ----- changes that leave every slot alone -----

  /** Blocks that no file owns may change freely. */
  lemma UnownedChange(s: State, t: State)
    requires Core(s) && Shape(t)
    requires t == s.(used := t.used, disk := t.disk)
    requires forall b :: b in s.owner ==> b in t.disk && t.disk[b] == s.disk[b]
    ensures Core(t) && forall j :: j in s.files ==> FileKept(s, t, j)
  {
    forall i, k | i in s.files && 0 <= k <= MAXFILE
      ensures Slot(t.disk, t.files[i], k) == Slot(s.disk, s.files[i], k)
    {
      assert SlotOk(s, i, MAXFILE);
    }
    forall i, k | i in t.files && 0 <= k <= MAXFILE ensures SlotOk(t, i, k) { assert SlotOk(s, i, k); }
    forall b | b in t.owner ensures OwnedOk(t, b) { assert OwnedOk(s, b); }
    forall j | j in s.files ensures FileKept(s, t, j) {
      forall x | 0 <= x < s.nb[j] * BSIZE ensures ByteAt(t, j, x) == ByteAt(s, j, x) {
        assert SlotOk(s, j, x / BSIZE);
      }
    }
  }

  /** balloc: a free block is marked and zeroed. */
  lemma AllocKeeps(s: State, loose: set<int>, b: int)
    requires Inv(s, loose) && 0 <= b < s.size && !s.used[b]
    ensures var t := s.(used := s.used[b := true], disk := s.disk[b := Zeros()]);
            && b != 0 && b !in loose && Inv(t, loose + {b})
            && forall j :: j in s.files ==> FileKept(s, t, j)
  {
    var t := s.(used := s.used[b := true], disk := s.disk[b := Zeros()]);
    UnownedChange(s, t);
  }

  /** bfree of a block in hand: its bit is set, and is cleared. */
  lemma FreeKeeps(s: State, loose: set<int>, b: int)
    requires Inv(s, loose) && b in loose
    ensures 0 < b < s.size && s.used[b]
    ensures var t := s.(used := s.used[b := false]);
            Inv(t, loose - {b}) && forall j :: j in s.files ==> FileKept(s, t, j)
  {
    UnownedChange(s, s.(used := s.used[b := false]));
  }

  /** Overwriting one data block of a file. */
  lemma WriteKeeps(s: State, loose: set<int>, i: int, k: int, blk: Block)
    requires Inv(s, loose) && i in s.files && 0 <= k < s.nb[i] && |blk| == BSIZE
    ensures SlotOk(s, i, k)
    ensures var b := Slot(s.disk, s.files[i], k);
            var t := s.(disk := s.disk[b := blk]);
            && b in s.disk && Inv(t, loose) && OthersKept(s, t, i)
            && forall x :: 0 <= x < s.nb[i] * BSIZE ==>
                 ByteAt(t, i, x) == if x / BSIZE == k then blk[x % BSIZE] else ByteAt(s, i, x)
  {
    assert SlotOk(s, i, k);
    var b := Slot(s.disk, s.files[i], k);
    var t := s.(disk := s.disk[b := blk]);
    forall j, m | j in s.files && 0 <= m <= MAXFILE
      ensures Slot(t.disk, t.files[j], m) == Slot(s.disk, s.files[j], m)
    {
      assert SlotOk(s, j, MAXFILE);
    }
    forall j, m | j in t.files && 0 <= m <= MAXFILE ensures SlotOk(t, j, m) { assert SlotOk(s, j, m); }
    forall c | c in t.owner ensures OwnedOk(t, c) { assert OwnedOk(s, c); }
    forall j | j in s.files && j != i ensures FileKept(s, t, j) {
      forall x | 0 <= x < s.nb[j] * BSIZE ensures ByteAt(t, j, x) == ByteAt(s, j, x) {
        assert SlotOk(s, j, x / BSIZE);
      }
    }
    forall x | 0 <= x < s.nb[i] * BSIZE
      ensures ByteAt(t, i, x) == if x / BSIZE == k then blk[x % BSIZE] else ByteAt(s, i, x)
    {
      assert SlotOk(s, i, x / BSIZE);
    }
  }

  // ----- a block in hand becomes part of a file -----

  /** bmap appends a direct block. */
  lemma LinkDirect(s: State, loose: set<int>, i: int, b: int)
    requires Inv(s, loose) && i in s.files && b in loose && s.nb[i] < NDIRECT
    ensures var k := s.nb[i];
            var ip := s.files[i].(addrs := s.files[i].addrs[k := b]);
            var t := s.(files := s.files[i := ip], owner := s.owner[b := Owner(i, k)], nb := s.nb[i := k + 1]);
            && Inv(t, loose - {b}) && OthersKept(s, t, i)
            && forall x :: 0 <= x < k * BSIZE ==> ByteAt(t, i, x) == ByteAt(s, i, x)
  {
    var k := s.nb[i];
    var ip := s.files[i].(addrs := s.files[i].addrs[k := b]);
    var t := s.(files := s.files[i := ip], owner := s.owner[b := Owner(i, k)], nb := s.nb[i := k + 1]);
    assert SlotOk(s, i, k);
    forall m | 0 <= m <= MAXFILE
      ensures Slot(t.disk, t.files[i], m) == if m == k then b else Slot(s.disk, s.files[i], m)
    {
      assert SlotOk(s, i, MAXFILE);
    }
    LinkedOk(s, t, loose, i, k, b);
  }

  /** What linking block `b` as slot `k` of file `i` amounts to. */
  lemma LinkedOk(s: State, t: State, loose: set<int>, i: int, k: int, b: int)
    requires Inv(s, loose) && Shape(t) && i in s.files && b in loose && 0 <= k <= MAXFILE
    requires t.size == s.size && t.reserved == s.reserved && t.used == s.used
    requires t.files.Keys == s.files.Keys && t.owner == s.owner[b := Owner(i, k)]
    requires forall j :: j in s.files && j != i ==>
        t.files[j] == s.files[j] && t.nb[j] == s.nb[j] && (j in t.early <==> j in s.early)
    requires forall m :: 0 <= m <= MAXFILE ==>
               Slot(t.disk, t.files[i], m) == if m == k then b else Slot(s.disk, s.files[i], m)
    requires forall m :: 0 <= m <= MAXFILE && m != k ==>
               ((Needed(t.nb[i], m) || (m == MAXFILE && i in t.early)) <==>
                   (Needed(s.nb[i], m) || (m == MAXFILE && i in s.early)))
    requires Needed(t.nb[i], k) || (k == MAXFILE && i in t.early)
    requires !(Needed(s.nb[i], k) || (k == MAXFILE && i in s.early))
    requires forall c :: c in s.owner && s.owner[c] != Owner(i, MAXFILE) ==> t.disk[c] == s.disk[c]
    requires s.nb[i] <= t.nb[i]
    ensures Inv(t, loose - {b}) && OthersKept(s, t, i)
    ensures forall x :: 0 <= x < s.nb[i] * BSIZE ==> ByteAt(t, i, x) == ByteAt(s, i, x)
  {
    forall j, m | j in s.files && j != i && 0 <= m <= MAXFILE
      ensures Slot(t.disk, t.files[j], m) == Slot(s.disk, s.files[j], m)
    {
      assert SlotOk(s, j, MAXFILE);
    }
    forall j, m | j in t.files && 0 <= m <= MAXFILE ensures SlotOk(t, j, m) {
      assert SlotOk(s, j, m);
    }
    forall c | c in t.owner ensures OwnedOk(t, c) {
      if c != b {
        assert OwnedOk(s, c);
        assert SlotOk(s, i, k);
      }
    }
    forall j | j in s.files && j != i ensures FileKept(s, t, j) {
      forall x | 0 <= x < s.nb[j] * BSIZE ensures ByteAt(t, j, x) == ByteAt(s, j, x) {
        assert SlotOk(s, j, x / BSIZE);
      }
    }
    forall x | 0 <= x < s.nb[i] * BSIZE ensures ByteAt(t, i, x) == ByteAt(s, i, x) {
      assert SlotOk(s, i, x / BSIZE) && SlotOk(s, i, k);
    }
  }

  /** bmap gives a file with all its direct blocks an indirect block: its words are
      all 0 because balloc zeroed it. */
  lemma LinkIndirect(s: State, loose: set<int>, i: int, b: int)
    requires Inv(s, loose) && i in s.files && b in loose && s.nb[i] == NDIRECT && i !in s.early
    requires s.disk[b] == Zeros()
    ensures var ip := s.files[i].(addrs := s.files[i].addrs[NDIRECT := b]);
            var t := s.(files := s.files[i := ip], owner := s.owner[b := Owner(i, MAXFILE)], early := s.early + {i});
            && Inv(t, loose - {b}) && OthersKept(s, t, i)
            && forall x :: 0 <= x < s.nb[i] * BSIZE ==> ByteAt(t, i, x) == ByteAt(s, i, x)
  {
    var ip := s.files[i].(addrs := s.files[i].addrs[NDIRECT := b]);
    var t := s.(files := s.files[i := ip], owner := s.owner[b := Owner(i, MAXFILE)], early := s.early + {i});
    assert SlotOk(s, i, MAXFILE);
    forall m | 0 <= m <= MAXFILE
      ensures Slot(t.disk, t.files[i], m) == if m == MAXFILE then b else Slot(s.disk, s.files[i], m)
    {
    }
    LinkedOk(s, t, loose, i, MAXFILE, b);
  }

  /** bmap appends a block named by the indirect block. */
  lemma LinkWord(s: State, t: State, loose: set<int>, i: int, b: int)
    requires Inv(s, loose) && i in s.files && b in loose && NDIRECT <= s.nb[i] < MAXFILE
    requires s.files[i].addrs[NDIRECT] != 0
    requires var k, ind := s.nb[i], s.files[i].addrs[NDIRECT];
             && ind in s.disk && |s.disk[ind]| == BSIZE
             && t == s.(disk := s.disk[ind := SetWord(s.disk[ind], k - NDIRECT, b)],
                        owner := s.owner[b := Owner(i, k)], nb := s.nb[i := k + 1], early := s.early - {i})
    ensures Inv(t, loose - {b}) && OthersKept(s, t, i)
    ensures forall x :: 0 <= x < s.nb[i] * BSIZE ==> ByteAt(t, i, x) == ByteAt(s, i, x)
  {
    var k, ind := s.nb[i], s.files[i].addrs[NDIRECT];
    assert SlotOk(s, i, MAXFILE) && SlotOk(s, i, k) && OwnedOk(s, ind);
    forall m | 0 <= m <= MAXFILE
      ensures Slot(t.disk, t.files[i], m) == if m == k then b else Slot(s.disk, s.files[i], m)
    {
      if NDIRECT <= m < MAXFILE { WordSet(s.disk[ind], k - NDIRECT, b, m - NDIRECT); }
    }
    LinkedOk(s, t, loose, i, k, b);
  }

  // ----- all blocks of a file come into hand -----

  ghost function BlocksOf(s: State, i: int, from: int): set<int> {
    set b | b in s.owner && s.owner[b].inum == i && s.owner[b].slot >= from
  }

  ghost function Without(s: State, i: int): State {
    s.(files := s.files - {i}, owner := s.owner - BlocksOf(s, i, 0), early := s.early - {i})
  }

  /** Taking a file out of the account puts its blocks in hand. */
  lemma DetachKeeps(s: State, loose: set<int>, i: int)
    requires Inv(s, loose) && i in s.files
    ensures Inv(Without(s, i), loose + BlocksOf(s, i, 0))
    ensures forall j :: j in s.files && j != i ==> FileKept(s, Without(s, i), j)
  {
    var t := Without(s, i);
    forall b | b in s.owner ensures 0 <= s.owner[b].slot { assert OwnedOk(s, b); }
    forall j, k | j in t.files && 0 <= k <= MAXFILE ensures SlotOk(t, j, k) { assert SlotOk(s, j, k); }
    forall b | b in t.owner ensures OwnedOk(t, b) { assert OwnedOk(s, b); }
    forall b | b in BlocksOf(s, i, 0) ensures 0 < b < s.size { assert OwnedOk(s, b); }
  }

  /** A file without blocks enters the account. */
  lemma AttachKeeps(s: State, loose: set<int>, i: int, ip: Inode)
    requires Inv(s, loose) && i !in s.files && ip.addrs == seq(NDIRECT + 1, _ => 0) && i !in s.early
    ensures var t := s.(files := s.files[i := ip], nb := s.nb[i := 0]);
            Inv(t, loose) && forall j :: j in s.files ==> FileKept(s, t, j)
  {
    var t := s.(files := s.files[i := ip], nb := s.nb[i := 0]);
    forall j, k | j in t.files && 0 <= k <= MAXFILE ensures SlotOk(t, j, k) {
      if j != i { assert SlotOk(s, j, k); }
    }
    forall b | b in t.owner ensures OwnedOk(t, b) { assert OwnedOk(s, b); }
  }

  /** The blocks in hand from slot `k` on: the one of slot `k` and the rest. */
  lemma NextBlock(s: State, i: int, k: int)
    requires Core(s) && i in s.files && 0 <= k <= MAXFILE
    ensures SlotOk(s, i, k)
    ensures var b := Slot(s.disk, s.files[i], k);
            if b == 0 then BlocksOf(s, i, k) == BlocksOf(s, i, k + 1)
            else b in BlocksOf(s, i, k) && BlocksOf(s, i, k) - {b} == BlocksOf(s, i, k + 1)
  {
    assert SlotOk(s, i, k);
    var b := Slot(s.disk, s.files[i], k);
    forall c | c in BlocksOf(s, i, k) ensures c == b || c in BlocksOf(s, i, k + 1) {
      assert OwnedOk(s, c);
    }
  }

  lemma NoneLeft(s: State, i: int)
    requires Core(s) && i in s.files
    ensures BlocksOf(s, i, MAXFILE + 1) == {}
  {
    forall c | c in s.owner ensures s.owner[c].slot <= MAXFILE { assert OwnedOk(s, c); }
  }
}
