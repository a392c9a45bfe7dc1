/** A 128-block disk: block 0 holds the free list and 16 inodes, the rest is data. */
module ToyFs {
  import opened Numbers

  const BLOCKS := 128
  const BSIZE := 1024
  const INODES := 16
  const RECORDS := 19        // inode records that start before byte 1024
  const POINTERS := 8

  type Block = seq<int>

  datatype Node = Node(name: string, size: int, ptrs: seq<int>, used: int)

  datatype Option<T> = None | Some(value: T)

  datatype Disk = Disk(marks: seq<int>, nodes: seq<Node>, blocks: seq<Block>)

  // ----- the free list -----

  function Sum(marks: seq<int>): int {
    if marks == [] then 0 else Sum(marks[..|marks| - 1]) + marks[|marks| - 1]
  }

  ghost predicate Bits(marks: seq<int>) { forall b :: 0 <= b < |marks| ==> marks[b] == 0 || marks[b] == 1 }

  /** Fewer marks than blocks: some block is free. */
  lemma {:induction false} SomeFree(marks: seq<int>)
    requires Bits(marks)
    ensures Sum(marks) <= |marks|
    ensures Sum(marks) < |marks| ==> exists b :: 0 <= b < |marks| && marks[b] == 0
  {
    if marks != [] {
      var rest := marks[..|marks| - 1];
      SomeFree(rest);
      if b :| 0 <= b < |rest| && rest[b] == 0 { assert marks[b] == 0; }
      if marks[|marks| - 1] == 0 { assert marks[|marks| - 1] == 0; }
    }
  }

  lemma {:induction false} SumMarked(marks: seq<int>, b: int)
    requires 0 <= b < |marks| && marks[b] == 0
    ensures Sum(marks[b := 1]) == Sum(marks) + 1
  {
    var n := |marks| - 1;
    if b < n {
      SumMarked(marks[..n], b);
      assert marks[b := 1][..n] == marks[..n][b := 1];
    } else {
      assert marks[b := 1][..n] == marks[..n];
    }
  }

  // ----- consistency -----

  /** Block pointer `j` of inode `i` is part of a file. */
  predicate InUse(nodes: seq<Node>, i: int, j: int) {
    && 0 <= i < |nodes| && nodes[i].used == 1 && 0 <= j < nodes[i].size && j < |nodes[i].ptrs|
  }

  function Ptr(nodes: seq<Node>, i: int, j: int): int
    requires InUse(nodes, i, j)
  {
    nodes[i].ptrs[j]
  }

  ghost predicate NodeOk(n: Node) {
    && (n.used == 0 || n.used == 1) && |n.ptrs| == POINTERS
    && (n.used == 1 ==> n.size <= POINTERS)
  }

  ghost predicate Nodes(nodes: seq<Node>) {
    |nodes| == INODES && forall i :: 0 <= i < INODES ==> NodeOk(nodes[i])
  }

  ghost predicate PtrOk(nodes: seq<Node>, i: int, j: int)
    requires InUse(nodes, i, j)
  {
    && 0 < Ptr(nodes, i, j) < BLOCKS
    && forall k, m :: InUse(nodes, k, m) && Ptr(nodes, k, m) == Ptr(nodes, i, j) ==> k == i && m == j
  }

  /** A block is marked if and only if it is block 0 or appears once in exactly one
      used inode. */
  ghost predicate Consistent(d: Disk) {
    && |d.marks| == |d.blocks| == BLOCKS && Bits(d.marks) && Nodes(d.nodes)
    && (forall b :: 0 <= b < BLOCKS ==> |d.blocks[b]| == BSIZE)
    && (forall i, j :: InUse(d.nodes, i, j) ==> PtrOk(d.nodes, i, j))
    && (forall b :: 0 <= b < BLOCKS ==>
          (d.marks[b] == 1 <==> b == 0 || exists i, j :: InUse(d.nodes, i, j) && Ptr(d.nodes, i, j) == b))
  }

  lemma FormattedOk(d: Disk)
    requires d.marks == [1] + seq(BLOCKS - 1, _ => 0) && d.blocks == seq(BLOCKS, _ => seq(BSIZE, _ => 0))
    requires d.nodes == seq(INODES, _ => Node("", 0, seq(POINTERS, _ => 0), 0))
    ensures Consistent(d) && forall name :: FileOf(d, name) == None
  {
  }

  // ----- what a disk means -----

  ghost predicate IsNamed(nodes: seq<Node>, i: int, name: string) {
    0 <= i < |nodes| && nodes[i].used == 1 && nodes[i].name == name
  }

  /** The first of the used inodes with a name: the one that is found. */
  ghost predicate IsFirst(nodes: seq<Node>, i: int, name: string) {
    IsNamed(nodes, i, name) && forall k :: 0 <= k < i ==> !IsNamed(nodes, k, name)
  }

  /** A file's blocks; a file made with a negative size has none. */
  ghost function Contents(d: Disk, i: int): seq<Block>
    requires Consistent(d) && 0 <= i < INODES && d.nodes[i].used == 1
  {
    assert NodeOk(d.nodes[i]);
    seq(Max(d.nodes[i].size, 0), j requires Consistent(d) && InUse(d.nodes, i, j) =>
      assert PtrOk(d.nodes, i, j); d.blocks[Ptr(d.nodes, i, j)])
  }

  ghost function FileOf(d: Disk, name: string): Option<seq<Block>>
    requires Consistent(d)
  {
    if i :| IsFirst(d.nodes, i, name) then Some(Contents(d, i)) else None
  }

  lemma FileIs(d: Disk, i: int, name: string)
    requires Consistent(d) && IsFirst(d.nodes, i, name)
    ensures FileOf(d, name) == Some(Contents(d, i))
  {
  }

  /** A name that some inode has is found. */
  lemma {:induction false} SomeFirst(nodes: seq<Node>, i: int, name: string) returns (k: int)
    requires IsNamed(nodes, i, name)
    ensures k <= i && IsFirst(nodes, k, name)
    decreases i
  {
    if j :| 0 <= j < i && IsNamed(nodes, j, name) {
      k := SomeFirst(nodes, j, name);
    } else {
      k := i;
    }
  }

  lemma NoFile(d: Disk, name: string)
    requires Consistent(d)
    ensures FileOf(d, name) == None <==> forall i :: !IsNamed(d.nodes, i, name)
  {
    if i :| IsNamed(d.nodes, i, name) { var k := SomeFirst(d.nodes, i, name); }
  }

  /** The inode and the blocks of file `i` are as they were. */
  ghost predicate Kept(d: Disk, e: Disk, i: int) {
    && Consistent(d) && Consistent(e) && 0 <= i < INODES && d.nodes[i].used == 1
    && e.nodes[i] == d.nodes[i] && Contents(e, i) == Contents(d, i)
  }

  lemma KeptBy(d: Disk, e: Disk, i: int)
    requires Consistent(d) && Consistent(e) && 0 <= i < INODES && d.nodes[i].used == 1 && e.nodes[i] == d.nodes[i]
    requires forall j :: InUse(d.nodes, i, j) && PtrOk(d.nodes, i, j) ==>
               e.blocks[Ptr(d.nodes, i, j)] == d.blocks[Ptr(d.nodes, i, j)]
    ensures Kept(d, e, i)
  {
    assert NodeOk(d.nodes[i]);
    forall j | 0 <= j < Max(d.nodes[i].size, 0) ensures Contents(e, i)[j] == Contents(d, i)[j] {
      assert InUse(d.nodes, i, j) && PtrOk(d.nodes, i, j);
    }
    assert Contents(e, i) == Contents(d, i);
  }

  /** A name that only kept inodes have means the same file. */
  lemma FileSame(d: Disk, e: Disk, name: string)
    requires Consistent(d) && Consistent(e)
    requires forall i :: IsNamed(d.nodes, i, name) <==> IsNamed(e.nodes, i, name)
    requires forall i :: IsNamed(d.nodes, i, name) ==> Kept(d, e, i)
    ensures FileOf(e, name) == FileOf(d, name)
  {
    if i :| IsNamed(d.nodes, i, name) {
      var k := SomeFirst(d.nodes, i, name);
      assert IsFirst(e.nodes, k, name) && Kept(d, e, k);
    } else {
      NoFile(d, name);
      NoFile(e, name);
    }
  }

  // ----- the operations on whole disks -----

  /** `ptrs` up to `n` are distinct blocks that were free, and exactly those have been
      marked. */
  ghost predicate Allocated(marks: seq<int>, after: seq<int>, ptrs: seq<int>, n: int) {
    && |after| == |marks| && Bits(after) && 0 <= n <= |ptrs|
    && (forall j :: 0 <= j < n ==> 0 <= ptrs[j] < |marks| && marks[ptrs[j]] == 0)
    && (forall j, k :: 0 <= j < k < n ==> ptrs[j] != ptrs[k])
    && (forall b :: 0 <= b < |marks| ==> (after[b] == 1 <==> marks[b] == 1 || b in ptrs[..n]))
  }

  /** Each block taken was the first free one. */
  ghost predicate Lowest(marks: seq<int>, ptrs: seq<int>, n: int)
    requires 0 <= n <= |ptrs|
  {
    forall j, b :: 0 <= j < n && 0 <= b < ptrs[j] && b < |marks| ==> marks[b] == 1 || b in ptrs[..j]
  }

  lemma CreateOk(d: Disk, e: Disk, i: int, n: Node)
    requires Consistent(d) && 0 <= i < INODES && d.nodes[i].used == 0
    requires NodeOk(n) && n.used == 1
    requires Allocated(d.marks, e.marks, n.ptrs, Max(n.size, 0)) && e == d.(marks := e.marks, nodes := d.nodes[i := n])
    ensures Consistent(e) && forall k :: 0 <= k < INODES && d.nodes[k].used == 1 ==> Kept(d, e, k)
    ensures FileOf(e, n.name) ==
            if exists k :: k < i && IsNamed(d.nodes, k, n.name) then FileOf(d, n.name) else Some(Contents(e, i))
    ensures forall name :: name != n.name ==> FileOf(e, name) == FileOf(d, name)
  {
    forall k, m | InUse(e.nodes, k, m) && k != i
      ensures InUse(d.nodes, k, m) && PtrOk(d.nodes, k, m) && d.marks[Ptr(e.nodes, k, m)] == 1
    {
    }
    forall k, m | InUse(e.nodes, k, m) ensures PtrOk(e.nodes, k, m) { }
    forall b | 0 <= b < BLOCKS
      ensures e.marks[b] == 1 <==> b == 0 || exists k, m :: InUse(e.nodes, k, m) && Ptr(e.nodes, k, m) == b
    {
      CreateMarks(d, e, i, n, b);
    }
    forall k | 0 <= k < INODES && d.nodes[k].used == 1 ensures Kept(d, e, k) { KeptBy(d, e, k); }
    forall name | name != n.name ensures FileOf(e, name) == FileOf(d, name) { FileSame(d, e, name); }
    if k :| k < i && IsNamed(d.nodes, k, n.name) {
      var f := SomeFirst(d.nodes, k, n.name);
      forall m | 0 <= m < f ensures !IsNamed(e.nodes, m, n.name) { assert !IsNamed(d.nodes, m, n.name); }
      assert IsFirst(e.nodes, f, n.name) && Kept(d, e, f);
    } else {
      forall k | 0 <= k < i ensures !IsNamed(e.nodes, k, n.name) { assert !IsNamed(d.nodes, k, n.name); }
      assert IsFirst(e.nodes, i, n.name);
    }
  }

  lemma CreateMarks(d: Disk, e: Disk, i: int, n: Node, b: int)
    requires Consistent(d) && 0 <= i < INODES && d.nodes[i].used == 0 && 0 <= b < BLOCKS
    requires NodeOk(n) && n.used == 1
    requires Allocated(d.marks, e.marks, n.ptrs, Max(n.size, 0)) && e == d.(marks := e.marks, nodes := d.nodes[i := n])
    ensures e.marks[b] == 1 <==> b == 0 || exists k, m :: InUse(e.nodes, k, m) && Ptr(e.nodes, k, m) == b
  {
    if k, m :| InUse(d.nodes, k, m) && Ptr(d.nodes, k, m) == b {
      assert InUse(e.nodes, k, m) && Ptr(e.nodes, k, m) == b;
    }
    if j :| 0 <= j < n.size && n.ptrs[j] == b {
      assert InUse(e.nodes, i, j) && Ptr(e.nodes, i, j) == b;
    }
    forall k, m | InUse(e.nodes, k, m) && Ptr(e.nodes, k, m) == b ensures e.marks[b] == 1 {
      if k != i { assert InUse(d.nodes, k, m) && Ptr(d.nodes, k, m) == b; }
    }
  }

  lemma DeleteOk(d: Disk, e: Disk, i: int)
    requires Consistent(d) && 0 <= i < INODES && d.nodes[i].used == 1
    requires |e.marks| == BLOCKS && e == d.(marks := e.marks, nodes := d.nodes[i := d.nodes[i].(used := 0)])
    requires Cleared(d, e.marks, i, d.nodes[i].size)
    ensures Consistent(e) && forall k :: 0 <= k < INODES && k != i && d.nodes[k].used == 1 ==> Kept(d, e, k)
    ensures FileOf(e, d.nodes[i].name) == None <==> forall k :: k != i ==> !IsNamed(d.nodes, k, d.nodes[i].name)
    ensures forall name :: name != d.nodes[i].name ==> FileOf(e, name) == FileOf(d, name)
  {
    assert NodeOk(d.nodes[i]);
    forall k, m | InUse(e.nodes, k, m) ensures k != i && InUse(d.nodes, k, m) && PtrOk(d.nodes, k, m) { }
    forall k, m | InUse(e.nodes, k, m) ensures PtrOk(e.nodes, k, m) { }
    forall b | 0 <= b < BLOCKS
      ensures e.marks[b] == 1 <==> b == 0 || exists k, m :: InUse(e.nodes, k, m) && Ptr(e.nodes, k, m) == b
    {
      DeleteMarks(d, e, i, b);
    }
    forall k | 0 <= k < INODES && k != i && d.nodes[k].used == 1 ensures Kept(d, e, k) { KeptBy(d, e, k); }
    forall name | name != d.nodes[i].name ensures FileOf(e, name) == FileOf(d, name) { FileSame(d, e, name); }
    NoFile(e, d.nodes[i].name);
    forall k ensures IsNamed(e.nodes, k, d.nodes[i].name) <==> k != i && IsNamed(d.nodes, k, d.nodes[i].name) { }
  }

  /** The first `n` blocks of inode `i` have been unmarked. */
  ghost predicate Cleared(d: Disk, marks: seq<int>, i: int, n: int)
    requires Consistent(d) && 0 <= i < INODES && d.nodes[i].used == 1
  {
    && |marks| == BLOCKS
    && forall b :: 0 <= b < BLOCKS ==>
         marks[b] == if exists j :: j < n && InUse(d.nodes, i, j) && Ptr(d.nodes, i, j) == b then 0 else d.marks[b]
  }

  lemma DeleteMarks(d: Disk, e: Disk, i: int, b: int)
    requires Consistent(d) && 0 <= i < INODES && d.nodes[i].used == 1 && 0 <= b < BLOCKS
    requires |e.marks| == BLOCKS && e == d.(marks := e.marks, nodes := d.nodes[i := d.nodes[i].(used := 0)])
    requires Cleared(d, e.marks, i, d.nodes[i].size)
    ensures e.marks[b] == 1 <==> b == 0 || exists k, m :: InUse(e.nodes, k, m) && Ptr(e.nodes, k, m) == b
  {
    forall k, m | InUse(e.nodes, k, m) && Ptr(e.nodes, k, m) == b ensures e.marks[b] == 1 {
      assert InUse(d.nodes, k, m) && Ptr(d.nodes, k, m) == b && PtrOk(d.nodes, k, m);
    }
    if k, m :| InUse(d.nodes, k, m) && Ptr(d.nodes, k, m) == b {
      assert PtrOk(d.nodes, k, m);
      assert k != i ==> InUse(e.nodes, k, m) && Ptr(e.nodes, k, m) == b;
    }
  }

  /** One block of a file is overwritten. */
  lemma WriteOk(d: Disk, e: Disk, i: int, j: int, buf: Block)
    requires Consistent(d) && InUse(d.nodes, i, j) && PtrOk(d.nodes, i, j) && |buf| == BSIZE
    requires IsFirst(d.nodes, i, d.nodes[i].name) && e == d.(blocks := d.blocks[Ptr(d.nodes, i, j) := buf])
    ensures Consistent(e) && forall k :: 0 <= k < INODES && k != i && d.nodes[k].used == 1 ==> Kept(d, e, k)
    ensures FileOf(d, d.nodes[i].name) == Some(Contents(d, i))
    ensures FileOf(e, d.nodes[i].name) == Some(Contents(d, i)[j := buf])
    ensures forall name :: name != d.nodes[i].name ==> FileOf(e, name) == FileOf(d, name)
  {
    var name := d.nodes[i].name;
    assert NodeOk(d.nodes[i]);
    FileIs(d, i, name);
    FileIs(e, i, name);
    forall m | 0 <= m < Max(d.nodes[i].size, 0) ensures Contents(e, i)[m] == Contents(d, i)[j := buf][m] {
      assert InUse(d.nodes, i, m) && PtrOk(d.nodes, i, m);
    }
    assert Contents(e, i) == Contents(d, i)[j := buf];
    forall k | 0 <= k < INODES && k != i && d.nodes[k].used == 1 ensures Kept(d, e, k) { KeptBy(d, e, k); }
    forall other | other != name ensures FileOf(e, other) == FileOf(d, other) { FileSame(d, e, other); }
  }

  // ----- inode records -----

  /** The records from number INODES on lie behind the inodes: two in the unused rest of
      block 0, and one that ends in block 1. */
  function Record(nodes: seq<Node>, blocks: seq<Block>, k: int): Node
    requires |nodes| == INODES && |blocks| == BLOCKS && |blocks[1]| == BSIZE && 0 <= k < RECORDS
  {
    if k < INODES then nodes[k]
    else if k < RECORDS - 1 then Node("", 0, seq(POINTERS, _ => 0), 0)
    else Node("", 0, seq(5, _ => 0) + [Word32(blocks[1], 0), Word32(blocks[1], 4), Word32(blocks[1], 8)],
        Word32(blocks[1], 12))
  }

  /** Bytes 12 to 15 of block 1 are the `used` field of the last record. */
  function Unused(b: Block): (r: Block)
    requires |b| == BSIZE
    ensures |r| == BSIZE && Word32(r, 12) == 0
  {
    b[12 := 0][13 := 0][14 := 0][15 := 0]
  }

  /** Deleting by this name hits the last record. */
  ghost predicate Phantom(d: Disk, name: string)
    requires Consistent(d)
  {
    name == "" && FileOf(d, name) == None && Word32(d.blocks[1], 12) == 1
  }

  /** Inode `i` is free, its blocks are unmarked, and every other file is kept. */
  ghost predicate Deleted(d: Disk, e: Disk, i: int) {
    && Consistent(d) && Consistent(e) && 0 <= i < INODES && d.nodes[i].used == 1
    && e.nodes == d.nodes[i := d.nodes[i].(used := 0)] && Cleared(d, e.marks, i, d.nodes[i].size)
    && forall k :: 0 <= k < INODES && k != i && d.nodes[k].used == 1 ==> Kept(d, e, k)
  }

  datatype CreateResult = Created(i: int) | NoSpace | TooMany    // the last two return -1

  class FileSystem {
    var marks: seq<int>
    var nodes: seq<Node>
    var blocks: seq<Block>

    ghost function D(): Disk
      reads this
    {
      Disk(marks, nodes, blocks)
    }

    /** A disk as the format program leaves it. */
    constructor ()
      ensures Consistent(D()) && marks == [1] + seq(BLOCKS - 1, _ => 0)
      ensures forall i :: 0 <= i < INODES ==> nodes[i].used == 0
      ensures forall name :: FileOf(D(), name) == None
    {
      marks, nodes := [1] + seq(BLOCKS - 1, _ => 0), seq(INODES, _ => Node("", 0, seq(POINTERS, _ => 0), 0));
      blocks := seq(BLOCKS, _ => seq(BSIZE, _ => 0));
      new;
      FormattedOk(D());
    }

    method CreateFile(name: string, size: int) returns (r: CreateResult)
      requires Consistent(D()) && size <= POINTERS
      modifies this`marks, this`nodes
      ensures Consistent(D())
      ensures r.NoSpace? <==> BLOCKS - Sum(old(marks)) < size
      ensures r.TooMany? ==> forall k :: 0 <= k < INODES ==> nodes[k].used == 1
      ensures !r.Created? ==> D() == old(D())
      ensures r.Created? ==>
        && 0 <= r.i < INODES && old(nodes)[r.i].used == 0 && (forall k :: 0 <= k < r.i ==> old(nodes)[k].used == 1)
        && IsNamed(nodes, r.i, name) && nodes[r.i].size == size
        && Allocated(old(marks), marks, nodes[r.i].ptrs, Max(size, 0))
        && Lowest(old(marks), nodes[r.i].ptrs, Max(size, 0))
        && (FileOf(old(D()), name) == None ==> FileOf(D(), name) == Some(Contents(D(), r.i)))
        && (forall k :: 0 <= k < INODES && old(nodes)[k].used == 1 ==> Kept(old(D()), D(), k))
        && forall other :: other != name ==> FileOf(D(), other) == FileOf(old(D()), other)
    {
      ghost var d := D();
      var blocked := CountMarks();
      if BLOCKS - blocked < size { return NoSpace; }
      var i := FindFree();
      if i >= INODES { return TooMany; }
      assert NodeOk(nodes[i]);
      var node, super := Allocate(nodes[i].(used := 1, name := name, size := size), size);
      marks := super;
      nodes := nodes[i := node];
      CreateOk(d, D(), i, node);
      NoFile(d, name);
      return Created(i);
    }

    /** Fills in the block pointers, each time with the first free block. */
    method Allocate(node0: Node, size: int) returns (node: Node, super: seq<int>)
      requires |marks| == BLOCKS && Bits(marks) && |node0.ptrs| == POINTERS && size <= POINTERS
      requires Sum(marks) + size <= BLOCKS
      ensures |node.ptrs| == POINTERS && node == node0.(ptrs := node.ptrs)
      ensures Allocated(marks, super, node.ptrs, Max(size, 0)) && Lowest(marks, node.ptrs, Max(size, 0))
    {
      node, super := node0, marks;
      var j := 0;
      while j < size
        invariant 0 <= j <= Max(size, 0) && |node.ptrs| == POINTERS && node == node0.(ptrs := node.ptrs)
        invariant Allocated(marks, super, node.ptrs, j) && Sum(super) == Sum(marks) + j
        invariant Lowest(marks, node.ptrs, j)
      {
        var b := FirstFree(super);
        SumMarked(super, b);
        AllocatedNext(marks, super, node.ptrs, j, b);
        node := node.(ptrs := node.ptrs[j := b]);
        super := super[b := 1];
        j := j + 1;
      }
    }

    method CountMarks() returns (blocked: int)
      requires |marks| == BLOCKS
      ensures blocked == Sum(marks)
    {
      blocked := 0;
      var i := 0;
      while i < BLOCKS
        invariant 0 <= i <= BLOCKS && blocked == Sum(marks[..i])
      {
        assert marks[..i + 1][..i] == marks[..i];
        blocked := blocked + marks[i];
        i := i + 1;
      }
      assert marks[..BLOCKS] == marks;
    }

    /** The number of the first inode record that is not used. */
    method FindFree() returns (i: int)
      requires Consistent(D())
      ensures 0 <= i <= INODES && (i < INODES ==> nodes[i].used == 0)
      ensures forall k :: 0 <= k < i ==> nodes[k].used == 1
    {
      i := 0;
      while i < RECORDS
        invariant 0 <= i <= INODES
        invariant forall k :: 0 <= k < i ==> nodes[k].used == 1
      {
        assert i < INODES ==> NodeOk(nodes[i]);
        if Record(nodes, blocks, i).used == 0 { return; }
        i := i + 1;
      }
    }

    method FirstFree(super: seq<int>) returns (b: int)
      requires |super| == BLOCKS && Bits(super) && Sum(super) < BLOCKS
      ensures 0 <= b < BLOCKS && super[b] == 0 && forall k :: 0 <= k < b ==> super[k] == 1
    {
      SomeFree(super);
      ghost var free :| 0 <= free < BLOCKS && super[free] == 0;
      b := 0;
      while super[b] != 0
        invariant 0 <= b <= free
        invariant forall k :: 0 <= k < b ==> super[k] == 1
        decreases BLOCKS - b
      {
        b := b + 1;
      }
    }

    /** The number of the used record with a name, or RECORDS. */
    method Find(name: string) returns (k: int)
      requires Consistent(D())
      ensures 0 <= k <= RECORDS
      ensures k < INODES ==> IsFirst(nodes, k, name)
      ensures k >= INODES ==> forall i :: !IsNamed(nodes, i, name)
      ensures INODES <= k < RECORDS ==> name == "" && k == RECORDS - 1 && Word32(blocks[1], 12) == 1
      ensures k == RECORDS ==> name != "" || Word32(blocks[1], 12) != 1
    {
      k := 0;
      while k < RECORDS
        invariant 0 <= k <= RECORDS
        invariant forall i :: 0 <= i < k && i < INODES ==> !IsNamed(nodes, i, name)
        invariant k == RECORDS ==> name != "" || Word32(blocks[1], 12) != 1
      {
        if Record(nodes, blocks, k).used == 1 && Record(nodes, blocks, k).name == name { return; }
        k := k + 1;
      }
    }

    /** Without a file of the empty name, that name can reach the record that ends in
        block 1: if the data there reads as a used inode, four bytes of it are zeroed. */
    method DeleteFile(name: string) returns (ok: bool)
      requires Consistent(D())
      modifies this`marks, this`nodes, this`blocks
      ensures Consistent(D())
      ensures old(Phantom(D(), name)) ==>
        ok && D() == old(D()).(blocks := old(blocks)[1 := Unused(old(blocks)[1])])
      ensures !old(Phantom(D(), name)) ==>
        && (ok <==> FileOf(old(D()), name).Some?) && blocks == old(blocks) && (!ok ==> D() == old(D()))
        && (ok ==> exists i :: IsFirst(old(nodes), i, name) && Deleted(old(D()), D(), i))
        && forall other :: other != name ==> FileOf(D(), other) == FileOf(old(D()), other)
    {
      ghost var d := D();
      var i := Find(name);
      NoFile(d, name);
      if i == RECORDS { return false; }
      var node := Record(nodes, blocks, i);
      if i < INODES {
        FileIs(d, i, name);
        assert NodeOk(node);
      }
      var super := marks;
      var j := 0;
      while j < node.size
        invariant 0 <= j <= Max(node.size, 0) && |super| == BLOCKS && D() == d
        invariant if i < INODES then Cleared(d, super, i, j) else super == marks
      {
        assert InUse(d.nodes, i, j) && PtrOk(d.nodes, i, j);
        super := super[node.ptrs[j] := 0];
        j := j + 1;
      }
      marks := super;
      if i < INODES {
        nodes := nodes[i := node.(used := 0)];
        DeleteOk(d, D(), i);
        assert Deleted(d, D(), i);
      } else {
        blocks := blocks[1 := Unused(blocks[1])];
      }
      return true;
    }

    method Read(name: string, blockNum: int) returns (r: Option<Block>)
      requires Consistent(D()) && blockNum >= 0
      ensures r == match FileOf(D(), name)
                   case None => None
                   case Some(file) => if blockNum < |file| then Some(file[blockNum]) else None
    {
      var i := Find(name);
      if i == RECORDS { return None; }
      var node := Record(nodes, blocks, i);
      if blockNum >= node.size { return None; }
      FileIs(D(), i, name);
      assert InUse(nodes, i, blockNum) && PtrOk(nodes, i, blockNum);
      return Some(blocks[node.ptrs[blockNum]]);
    }

    method Write(name: string, blockNum: int, buf: Block) returns (ok: bool)
      requires Consistent(D()) && blockNum >= 0 && |buf| == BSIZE
      modifies this`blocks
      ensures Consistent(D()) && blocks[0] == old(blocks)[0]
      ensures ok <==> FileOf(old(D()), name).Some? && blockNum < |FileOf(old(D()), name).value|
      ensures !ok ==> D() == old(D())
      ensures ok ==> FileOf(D(), name) == Some(FileOf(old(D()), name).value[blockNum := buf])
      ensures forall other :: other != name ==> FileOf(D(), other) == FileOf(old(D()), other)
    {
      ghost var d := D();
      var i := Find(name);
      if i == RECORDS { return false; }
      var node := Record(nodes, blocks, i);
      if i < INODES {
        assert NodeOk(node);
        FileIs(d, i, name);
      }
      if blockNum >= node.size { return false; }
      assert InUse(nodes, i, blockNum) && PtrOk(nodes, i, blockNum);
      blocks := blocks[node.ptrs[blockNum] := buf];
      WriteOk(d, D(), i, blockNum, buf);
      return true;
    }
  }

  lemma AllocatedNext(marks: seq<int>, after: seq<int>, ptrs: seq<int>, n: int, b: int)
    requires Allocated(marks, after, ptrs, n) && Bits(marks) && n < |ptrs| && 0 <= b < |marks| && after[b] == 0
    ensures Allocated(marks, after[b := 1], ptrs[n := b], n + 1)
  {
    var more := ptrs[n := b];
    assert more[..n + 1] == ptrs[..n] + [b];
    forall j | 0 <= j < n ensures more[j] == ptrs[j] != b { assert ptrs[j] in ptrs[..n]; }
  }

  /** A file whose block 1 reads as a used inode from byte 12 on is changed by deleting
      the file with the empty name, which does not exist. */
  method DeleteNothing(buf: Block) returns (fs: FileSystem, ok: bool)
    requires |buf| == BSIZE && Word32(buf, 12) == 1
    ensures fresh(fs) && Consistent(fs.D()) && ok
    ensures FileOf(fs.D(), "a") == Some([Unused(buf)]) && Unused(buf) != buf
  {
    fs := OneFile();
    var written := fs.Write("a", 0, buf);
    BlockOne(fs.D());
    assert [fs.blocks[1]][0] == buf;
    ok := fs.DeleteFile("");
    BlockOne(fs.D());
  }

  /** Inode 0 is file "a", and block 1 is all of it. */
  ghost predicate OnBlockOne(nodes: seq<Node>) {
    IsFirst(nodes, 0, "a") && nodes[0].size == 1 && |nodes[0].ptrs| == POINTERS && nodes[0].ptrs[0] == 1
  }

  lemma BlockOne(d: Disk)
    requires Consistent(d) && OnBlockOne(d.nodes)
    ensures FileOf(d, "a") == Some([d.blocks[1]])
  {
    FileIs(d, 0, "a");
    assert InUse(d.nodes, 0, 0) && PtrOk(d.nodes, 0, 0);
    assert Contents(d, 0) == [d.blocks[1]];
  }

  /** A new disk with one file of one block. */
  method OneFile() returns (fs: FileSystem)
    ensures fresh(fs) && Consistent(fs.D()) && OnBlockOne(fs.nodes)
    ensures FileOf(fs.D(), "").None? && FileOf(fs.D(), "a").Some? && |FileOf(fs.D(), "a").value| == 1
  {
    fs := new FileSystem();
    ghost var marks, nodes := fs.marks, fs.nodes;
    assert nodes[0].used == 0;
    SumMarked(marks, 1);
    SomeFree(marks[1 := 1]);
    var r := fs.CreateFile("a", 1);
    assert r.Created? && r.i == 0;
    assert fs.nodes[0].ptrs[..0] == [];
    BlockOne(fs.D());
  }
}
