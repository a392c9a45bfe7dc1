/** The buffer cache between the file system and the disk.  Each method is one step a
    process takes between two points where others may run. */
module BufferCache {
  import opened Ring
  import opened Numbers

  const ROOTDEV := 1
  const NONE := -1       // no process

  type Block = seq<int>

  datatype Buf = Buf(dev: int, blockno: int, valid: bool, dirty: bool, refcnt: int, holder: int, data: Block)

  datatype Got = Buffer(b: int) | NoBuffers     // panic("bget: no buffers")

  // ----- what is true of the buffers between steps -----

  /** Buffer `b` may be given to another block. */
  predicate Idle(buf: Buf) { buf.refcnt == 0 && !buf.dirty }

  predicate Holds(buf: Buf, blockno: int) { buf.dev == ROOTDEV && buf.blockno == blockno }

  /** A buffer's counters, flags and data; `view` is what has last been put in each block. */
  ghost predicate BufOk(buf: Buf, refs: set<int>, disk: map<int, Block>, view: map<int, Block>) {
    && buf.refcnt == |refs| && NONE !in refs
    && (buf.holder != NONE ==> buf.holder in refs)
    && (buf.dirty ==> buf.valid)
    && (buf.valid || buf.refcnt > 0 ==> buf.dev == ROOTDEV && buf.blockno in disk && buf.blockno in view)
    && (buf.valid ==> view[buf.blockno] == buf.data)
    && (buf.valid && !buf.dirty && buf.holder == NONE ==> disk[buf.blockno] == buf.data)
  }

  /** Block `n` is in a valid buffer. */
  ghost predicate Cached(bufs: seq<Buf>, n: int) { exists b :: 0 <= b < |bufs| && bufs[b].valid && Holds(bufs[b], n) }

  ghost predicate AllOk(bufs: seq<Buf>, refs: seq<set<int>>, disk: map<int, Block>, view: map<int, Block>) {
    && |bufs| == |refs| && disk.Keys == view.Keys
    && (forall b :: 0 <= b < |bufs| && (bufs[b].valid || refs[b] != {}) ==> bufs[b].blockno in disk)
    && (forall b {:trigger BufOk(bufs[b], refs[b], disk, view)} :: 0 <= b < |bufs| ==>
        BufOk(bufs[b], refs[b], disk, view))
    && (forall a, b :: 0 <= a < b < |bufs| && bufs[a].dev == ROOTDEV && bufs[b].dev == ROOTDEV ==>
          bufs[a].blockno != bufs[b].blockno)
    && (forall n {:trigger Cached(bufs, n)} :: n in view && view[n] != disk[n] ==> Cached(bufs, n))
  }

  lemma EmptyOk(bufs: seq<Buf>, refs: seq<set<int>>, contents: map<int, Block>)
    requires |refs| == |bufs| && forall b :: 0 <= b < |bufs| ==>
        refs[b] == {} && bufs[b] == Buf(0, 0, false, false, 0, NONE, [])
    ensures AllOk(bufs, refs, contents, contents)
  {
  }

  /** When nobody holds a buffer and none is dirty, the disk is up to date. */
  lemma QuietMeansWritten(bufs: seq<Buf>, refs: seq<set<int>>, disk: map<int, Block>, view: map<int, Block>)
    requires AllOk(bufs, refs, disk, view)
    requires forall b :: 0 <= b < |bufs| ==> bufs[b].holder == NONE && !bufs[b].dirty
    ensures view == disk
  {
    forall n | n in view ensures view[n] == disk[n] {
      assert view[n] != disk[n] ==> Cached(bufs, n);
      if b :| 0 <= b < |bufs| && bufs[b].valid && Holds(bufs[b], n) {
        assert BufOk(bufs[b], refs[b], disk, view);
      }
    }
  }

  class Bcache {
    /** Buffers 0 .. nbuf - 1; node nbuf is the head of the ring. */
    const nbuf: nat
    var next: seq<int>
    var prev: seq<int>
    var bufs: seq<Buf>
    var disk: map<int, Block>
    /** The ring's buffers, most recently used first. */
    ghost var order: seq<int>
    ghost var at: seq<int>
    /** Who has a reference to each buffer. */
    ghost var refs: seq<set<int>>
    ghost var view: map<int, Block>

    /** The ring holds every buffer once. */
    ghost predicate RingOk()
      reads this
    {
      && IsRing(next, prev, order, nbuf) && |order| == |at| == nbuf
      && forall b :: 0 <= b < nbuf ==> 0 <= at[b] < nbuf && order[at[b]] == b
    }

    ghost predicate Valid()
      reads this
    {
      RingOk() && |bufs| == nbuf && AllOk(bufs, refs, disk, view)
    }

    /** binit */
    constructor (n: nat, contents: map<int, Block>)
      ensures Valid() && nbuf == n && disk == view == contents
      ensures order == seq(n, k => n - 1 - k)
      ensures bufs == seq(n, _ => Buf(0, 0, false, false, 0, NONE, [])) && refs == seq(n, _ => {})
    {
      nbuf := n;
      next := seq(n + 1, _ => n);
      prev := seq(n + 1, _ => n);
      bufs := seq(n, _ => Buf(0, 0, false, false, 0, NONE, []));
      disk, view := contents, contents;
      order, at, refs := [], seq(n, b => n - 1 - b), seq(n, _ => {});
      new;
      EmptyOk(bufs, refs, contents);
      assert Linked(next, prev, order, n, 0);
      var b := 0;
      while b < n
        invariant 0 <= b <= n && IsRing(next, prev, order, n)
        invariant order == seq(b, k => b - 1 - k)
        modifies this`next, this`prev, this`order
      {
        Inserted(next, prev, order, n, b);
        ghost var more := [b] + order;
        var first := next[n];
        next := next[b := first];
        prev := prev[b := n];
        prev := prev[first := b];
        next := next[n := b];
        order := more;
        b := b + 1;
      }
    }

    /** bget up to where it waits for the buffer's lock: process `p` gets a reference to
        the block's buffer. */
    method Bget(p: int, blockno: int) returns (r: Got)
      requires Valid() && p != NONE && blockno in disk
      requires forall b :: 0 <= b < nbuf && Holds(bufs[b], blockno) ==> p !in refs[b]
      modifies this`bufs, this`refs
      ensures Valid()
      ensures r.Buffer? ==>
        && 0 <= r.b < nbuf && Holds(bufs[r.b], blockno)
        && refs == old(refs)[r.b := old(refs)[r.b] + {p}]
        && bufs == old(bufs)[r.b := bufs[r.b]]
        && if Holds(old(bufs)[r.b], blockno)
           then bufs[r.b] == old(bufs)[r.b].(refcnt := old(bufs)[r.b].refcnt + 1)
           else
             && (forall b :: 0 <= b < nbuf ==> !Holds(old(bufs)[b], blockno))
             && Idle(old(bufs)[r.b]) && old(bufs)[r.b].holder == NONE
             && (forall k :: at[r.b] < k < nbuf ==> !Idle(old(bufs)[order[k]]))
             && bufs[r.b] == Buf(ROOTDEV, blockno, false, false, 1, NONE, old(bufs)[r.b].data)
      ensures r.NoBuffers? ==> bufs == old(bufs) && refs == old(refs)
      ensures r.NoBuffers? <==> forall b :: 0 <= b < nbuf ==> !Idle(old(bufs)[b]) && !Holds(old(bufs)[b], blockno)
    {
      var b := FindCached(blockno);
      if b != nbuf {
        RefKeeps(bufs, refs, disk, view, b, p);
        bufs := bufs[b := bufs[b].(refcnt := bufs[b].refcnt + 1)];
        refs := refs[b := refs[b] + {p}];
        return Buffer(b);
      }
      b := FindIdle();
      if b != nbuf {
        RecycleKeeps(bufs, refs, disk, view, b, p, blockno);
        assert refs[b] + {p} == {p};
        bufs := bufs[b := Buf(ROOTDEV, blockno, false, false, 1, NONE, bufs[b].data)];
        refs := refs[b := {p}];
        return Buffer(b);
      }
      return NoBuffers;
    }

    /** Forward through the ring: the buffer that holds a block, or the head. */
    method FindCached(blockno: int) returns (b: int)
      requires RingOk() && |bufs| == nbuf
      ensures 0 <= b <= nbuf && (b < nbuf ==> Holds(bufs[b], blockno))
      ensures b == nbuf ==> forall c :: 0 <= c < nbuf ==> !Holds(bufs[c], blockno)
    {
      b := next[nbuf];
      ghost var k := 0;
      assert Linked(next, prev, order, nbuf, 0);
      while b != nbuf
        invariant 0 <= k <= nbuf && b == El(order, nbuf, k)
        invariant forall j :: 0 <= j < k ==> !Holds(bufs[order[j]], blockno)
        decreases nbuf - k
      {
        if bufs[b].dev == ROOTDEV && bufs[b].blockno == blockno { return; }
        Neighbours(next, prev, order, nbuf, k);
        b := next[b];
        k := k + 1;
      }
      forall c | 0 <= c < nbuf ensures !Holds(bufs[c], blockno) { assert order[at[c]] == c; }
    }

    /** Backward through the ring: the idle buffer nearest the tail, or the head. */
    method FindIdle() returns (b: int)
      requires RingOk() && |bufs| == nbuf
      ensures 0 <= b <= nbuf
      ensures b < nbuf ==> Idle(bufs[b]) && forall k :: at[b] < k < nbuf ==> !Idle(bufs[order[k]])
      ensures b == nbuf ==> forall c :: 0 <= c < nbuf ==> !Idle(bufs[c])
    {
      b := prev[nbuf];
      ghost var k := nbuf - 1;
      assert Linked(next, prev, order, nbuf, nbuf);
      while b != nbuf
        invariant -1 <= k < nbuf && b == El(order, nbuf, k)
        invariant forall j :: k < j < nbuf ==> !Idle(bufs[order[j]])
        decreases k
      {
        if bufs[b].refcnt == 0 && !bufs[b].dirty {
          assert at[b] == k by { assert order[at[b]] == order[k]; }
          return;
        }
        Neighbours(next, prev, order, nbuf, k);
        b := prev[b];
        k := k - 1;
      }
      forall c | 0 <= c < nbuf ensures !Idle(bufs[c]) { assert order[at[c]] == c; }
    }

    /** acquiresleep: the lock is taken if it is free. */
    method Acquire(p: int, b: int) returns (taken: bool)
      requires Valid() && 0 <= b < nbuf && p in refs[b]
      modifies this`bufs
      ensures Valid() && taken == (old(bufs)[b].holder == NONE)
      ensures bufs == if taken then old(bufs)[b := old(bufs)[b].(holder := p)] else old(bufs)
    {
      assert BufOk(bufs[b], refs[b], disk, view);
      if bufs[b].holder != NONE { return false; }
      BufChanged(bufs, refs, disk, view, b, bufs[b].(holder := p));
      bufs := bufs[b := bufs[b].(holder := p)];
      return true;
    }

    /** iderw: a dirty buffer goes to the disk, any other is filled from it. */
    method Iderw(p: int, b: int) returns (panic: bool)
      requires Valid() && 0 <= b < nbuf && p != NONE
      modifies this`bufs, this`disk
      ensures Valid()
      ensures panic <==>
        || old(bufs)[b].holder != p || (old(bufs)[b].valid && !old(bufs)[b].dirty)
        || old(bufs)[b].dev != ROOTDEV || old(bufs)[b].blockno !in old(disk)
      ensures old(bufs)[b].holder == p ==> bufs[b].dev == ROOTDEV && bufs[b].blockno in disk
      ensures panic ==> bufs == old(bufs) && disk == old(disk)
      ensures !panic ==>
        bufs == old(bufs)[b := old(bufs)[b].(valid := true, dirty := false, data := view[old(bufs)[b].blockno])]
      ensures !panic ==>
        disk == if old(bufs)[b].dirty then old(disk)[bufs[b].blockno := bufs[b].data] else old(disk)
    {
      if bufs[b].holder != p { return true; }
      ghost var bufs0, disk0 := bufs, disk;
      assert BufOk(bufs[b], refs[b], disk, view);
      assert bufs[b].refcnt > 0;
      if bufs[b].valid && !bufs[b].dirty { return true; }
      if bufs[b].dev != ROOTDEV || bufs[b].blockno !in disk { return true; }
      if bufs[b].dirty {
        disk := disk[bufs[b].blockno := bufs[b].data];
        bufs := bufs[b := bufs[b].(dirty := false, valid := true)];
      } else {
        bufs := bufs[b := bufs[b].(data := disk[bufs[b].blockno], valid := true)];
      }
      DiskKeeps(bufs0, refs, disk0, view, b, bufs[b], disk);
      return false;
    }

    /** The rest of bread: the holder sees what was last put in the block. */
    method Load(p: int, b: int)
      requires Valid() && 0 <= b < nbuf && p in refs[b] && bufs[b].holder == p
      modifies this`bufs, this`disk
      ensures Valid() && disk == old(disk)
      ensures bufs == old(bufs)[b := old(bufs)[b].(valid := true, data := view[old(bufs)[b].blockno])]
    {
      assert BufOk(bufs[b], refs[b], disk, view);
      if !bufs[b].valid {
        var panic := Iderw(p, b);
        assert !panic;
      }
    }

    /** The holder changes the block. */
    method Modify(p: int, b: int, data: Block)
      requires Valid() && 0 <= b < nbuf && p in refs[b] && bufs[b].holder == p && bufs[b].valid
      modifies this`bufs, this`view
      ensures Valid() && view == old(view)[bufs[b].blockno := data]
      ensures bufs == old(bufs)[b := old(bufs)[b].(data := data)]
    {
      assert BufOk(bufs[b], refs[b], disk, view);
      ModifyKeeps(bufs, refs, disk, view, b, data);
      view := view[bufs[b].blockno := data];
      bufs := bufs[b := bufs[b].(data := data)];
    }

    /** log_write pins the buffer. */
    method Pin(p: int, b: int)
      requires Valid() && 0 <= b < nbuf && p in refs[b] && bufs[b].holder == p && bufs[b].valid
      modifies this`bufs
      ensures Valid() && bufs == old(bufs)[b := old(bufs)[b].(dirty := true)]
    {
      assert BufOk(bufs[b], refs[b], disk, view);
      BufChanged(bufs, refs, disk, view, b, bufs[b].(dirty := true));
      bufs := bufs[b := bufs[b].(dirty := true)];
    }

    method Bwrite(p: int, b: int) returns (panic: bool)
      requires Valid() && 0 <= b < nbuf && (bufs[b].holder == p ==> p in refs[b] && bufs[b].valid)
      modifies this`bufs, this`disk
      ensures Valid() && (panic <==> old(bufs)[b].holder != p)
      ensures !panic ==>
        && bufs == old(bufs)[b := old(bufs)[b].(dirty := false)]
        && disk == old(disk)[bufs[b].blockno := bufs[b].data] && disk[bufs[b].blockno] == view[bufs[b].blockno]
      ensures panic ==> bufs == old(bufs) && disk == old(disk)
    {
      if bufs[b].holder != p { return true; }
      Pin(p, b);
      assert BufOk(bufs[b], refs[b], disk, view);
      panic := Iderw(p, b);
    }

    /** brelse, first half: a holder that has logged or written what it changed unlocks. */
    method Unlock(p: int, b: int) returns (panic: bool)
      requires Valid() && 0 <= b < nbuf && p != NONE
      requires bufs[b].holder == p && bufs[b].valid && !bufs[b].dirty ==> bufs[b].data == disk[bufs[b].blockno]
      modifies this`bufs
      ensures Valid() && (panic <==> old(bufs)[b].holder != p)
      ensures bufs == if panic then old(bufs) else old(bufs)[b := old(bufs)[b].(holder := NONE)]
    {
      assert BufOk(bufs[b], refs[b], disk, view);
      if bufs[b].holder != p { return true; }
      BufChanged(bufs, refs, disk, view, b, bufs[b].(holder := NONE));
      bufs := bufs[b := bufs[b].(holder := NONE)];
      return false;
    }

    /** brelse, second half: the last to leave moves the buffer to the front. */
    method Unref(p: int, b: int)
      requires Valid() && 0 <= b < nbuf && p in refs[b] && bufs[b].holder != p
      modifies this`bufs, this`refs, this`next, this`prev, this`order, this`at
      ensures Valid()
      ensures bufs == old(bufs)[b := old(bufs)[b].(refcnt := old(bufs)[b].refcnt - 1)]
      ensures refs == old(refs)[b := old(refs)[b] - {p}]
      ensures order == if bufs[b].refcnt == 0
                       then [b] + old(order)[..old(at)[b]] + old(order)[old(at)[b] + 1..] else old(order)
    {
      UnrefKeeps(bufs, refs, disk, view, b, p);
      bufs := bufs[b := bufs[b].(refcnt := bufs[b].refcnt - 1)];
      refs := refs[b := refs[b] - {p}];
      if bufs[b].refcnt == 0 { MoveToFront(b); }
    }

    method MoveToFront(b: int)
      requires RingOk() && 0 <= b < nbuf
      modifies this`next, this`prev, this`order, this`at
      ensures RingOk()
      ensures order == [b] + old(order)[..old(at)[b]] + old(order)[old(at)[b] + 1..]
    {
      ghost var k := at[b];
      ghost var left := order[..k] + order[k + 1..];
      Removed(next, prev, order, nbuf, k);
      var n, q := next[b], prev[b];
      prev := prev[n := q];
      next := next[q := n];
      Inserted(next, prev, left, nbuf, b);
      next := next[b := next[nbuf]];
      prev := prev[b := nbuf];
      var first := next[nbuf];
      prev := prev[first := b];
      next := next[nbuf := b];
      ghost var was, all := at, order;
      at := seq(nbuf, c requires 0 <= c < |was| => if c == b then 0 else if was[c] < k then was[c] + 1 else was[c]);
      order := [b] + left;
      assert order == [b] + all[..k] + all[k + 1..];
      forall c | 0 <= c < nbuf ensures 0 <= at[c] < nbuf && order[at[c]] == c { assert all[was[c]] == c; }
    }
  }

  // ----- one buffer changes -----

  lemma BufChanged(bufs: seq<Buf>, refs: seq<set<int>>, disk: map<int, Block>, view: map<int, Block>, b: int, buf: Buf)
    requires AllOk(bufs, refs, disk, view) && 0 <= b < |bufs| && BufOk(buf, refs[b], disk, view)
    requires buf.dev == bufs[b].dev && buf.blockno == bufs[b].blockno && (bufs[b].valid ==> buf.valid)
    ensures AllOk(bufs[b := buf], refs, disk, view)
  {
    var after := bufs[b := buf];
    forall n | n in view && view[n] != disk[n] ensures Cached(after, n) {
      assert Cached(bufs, n);
      var c :| 0 <= c < |bufs| && bufs[c].valid && Holds(bufs[c], n);
      assert after[c].valid && Holds(after[c], n);
    }
  }

  lemma RefKeeps(bufs: seq<Buf>, refs: seq<set<int>>, disk: map<int, Block>, view: map<int, Block>, b: int, p: int)
    requires AllOk(bufs, refs, disk, view) && 0 <= b < |bufs| && p !in refs[b] && p != NONE
    requires bufs[b].dev == ROOTDEV && bufs[b].blockno in disk
    ensures AllOk(bufs[b := bufs[b].(refcnt := bufs[b].refcnt + 1)], refs[b := refs[b] + {p}], disk, view)
  {
    Reref(bufs, refs, disk, view, b, bufs[b].(refcnt := bufs[b].refcnt + 1), refs[b] + {p});
  }

  lemma UnrefKeeps(bufs: seq<Buf>, refs: seq<set<int>>, disk: map<int, Block>, view: map<int, Block>, b: int, p: int)
    requires AllOk(bufs, refs, disk, view) && 0 <= b < |bufs| && p in refs[b] && bufs[b].holder != p
    ensures AllOk(bufs[b := bufs[b].(refcnt := bufs[b].refcnt - 1)], refs[b := refs[b] - {p}], disk, view)
  {
    assert BufOk(bufs[b], refs[b], disk, view);
    Reref(bufs, refs, disk, view, b, bufs[b].(refcnt := bufs[b].refcnt - 1), refs[b] - {p});
  }

  lemma Reref(bufs: seq<Buf>, refs: seq<set<int>>, disk: map<int, Block>, view: map<int, Block>, b: int, buf: Buf,
              who: set<int>)
    requires AllOk(bufs, refs, disk, view) && 0 <= b < |bufs|
    requires BufOk(bufs[b], refs[b], disk, view) ==> BufOk(buf, who, disk, view)
    requires buf == bufs[b].(refcnt := buf.refcnt)
    ensures AllOk(bufs[b := buf], refs[b := who], disk, view)
  {
    var after := bufs[b := buf];
    forall n | n in view && view[n] != disk[n] ensures Cached(after, n) {
      assert Cached(bufs, n);
      var c :| 0 <= c < |bufs| && bufs[c].valid && Holds(bufs[c], n);
      assert after[c].valid && Holds(after[c], n);
    }
  }

  /** An idle buffer holds nothing that is not on the disk. */
  lemma RecycleKeeps(bufs: seq<Buf>, refs: seq<set<int>>, disk: map<int, Block>, view: map<int, Block>, b: int,
                     p: int, blockno: int)
    requires AllOk(bufs, refs, disk, view) && 0 <= b < |bufs| && p != NONE && Idle(bufs[b]) && blockno in disk
    requires forall c :: 0 <= c < |bufs| ==> !Holds(bufs[c], blockno)
    ensures bufs[b].holder == NONE && refs[b] == {}
    ensures AllOk(bufs[b := Buf(ROOTDEV, blockno, false, false, 1, NONE, bufs[b].data)], refs[b := {p}], disk, view)
  {
    assert BufOk(bufs[b], refs[b], disk, view);
    var after := bufs[b := Buf(ROOTDEV, blockno, false, false, 1, NONE, bufs[b].data)];
    forall n | n in view && view[n] != disk[n] ensures Cached(after, n) {
      assert Cached(bufs, n);
      var c :| 0 <= c < |bufs| && bufs[c].valid && Holds(bufs[c], n);
      assert c != b;
      assert after[c].valid && Holds(after[c], n);
    }
  }

  lemma DiskKeeps(bufs: seq<Buf>, refs: seq<set<int>>, disk: map<int, Block>, view: map<int, Block>, b: int,
                  buf: Buf, disk1: map<int, Block>)
    requires AllOk(bufs, refs, disk, view) && 0 <= b < |bufs| && bufs[b].refcnt > 0
    requires BufOk(bufs[b], refs[b], disk, view)
    requires disk1 == if bufs[b].dirty then disk[bufs[b].blockno := view[bufs[b].blockno]] else disk
    requires bufs[b].dirty || !bufs[b].valid
    requires buf == bufs[b].(valid := true, dirty := false, data := disk1[bufs[b].blockno])
    ensures disk1[bufs[b].blockno] == view[bufs[b].blockno]
    ensures AllOk(bufs[b := buf], refs, disk1, view)
  {
    var after, n0 := bufs[b := buf], bufs[b].blockno;
    assert view[n0] != disk[n0] ==> Cached(bufs, n0);
    if !bufs[b].valid {
      forall c | 0 <= c < |bufs| ensures !(bufs[c].valid && Holds(bufs[c], n0)) { }
    }
    forall c | 0 <= c < |after| ensures BufOk(after[c], refs[c], disk1, view) {
      assert BufOk(bufs[c], refs[c], disk, view);
    }
    forall n | n in view && view[n] != disk1[n] ensures Cached(after, n) {
      assert Cached(bufs, n);
      var c :| 0 <= c < |bufs| && bufs[c].valid && Holds(bufs[c], n);
      assert after[c].valid && Holds(after[c], n);
    }
  }

  lemma ModifyKeeps(bufs: seq<Buf>, refs: seq<set<int>>, disk: map<int, Block>, view: map<int, Block>, b: int,
                    data: Block)
    requires AllOk(bufs, refs, disk, view) && 0 <= b < |bufs| && bufs[b].valid && bufs[b].holder != NONE
    requires bufs[b].blockno in view && bufs[b].dev == ROOTDEV
    ensures AllOk(bufs[b := bufs[b].(data := data)], refs, disk, view[bufs[b].blockno := data])
  {
    var after, n0 := bufs[b := bufs[b].(data := data)], bufs[b].blockno;
    var view1 := view[n0 := data];
    forall c | 0 <= c < |after| ensures BufOk(after[c], refs[c], disk, view1) {
      assert BufOk(bufs[c], refs[c], disk, view);
    }
    forall n | n in view1 && view1[n] != disk[n] ensures Cached(after, n) {
      assert Cached(bufs, n);
      if n == n0 {
        assert after[b].valid && Holds(after[b], n);
      } else {
        var c :| 0 <= c < |bufs| && bufs[c].valid && Holds(bufs[c], n);
        assert after[c].valid && Holds(after[c], n);
      }
    }
  }

  // ----- a cache full of pinned buffers -----

  ghost function Busy(bufs: seq<Buf>): set<nat> { set b | b in Upto(|bufs|) && !Idle(bufs[b]) }

  /** A buffer is left to recycle exactly if fewer are pinned or referenced than there are. */
  lemma IdleLeft(bufs: seq<Buf>)
    ensures |Busy(bufs)| < |bufs| <==> exists b :: 0 <= b < |bufs| && Idle(bufs[b])
  {
    if b :| 0 <= b < |bufs| && Idle(bufs[b]) {
      Subset(Busy(bufs) + {b}, Upto(|bufs|));
      assert b !in Busy(bufs);
    } else {
      assert Busy(bufs) == Upto(|bufs|);
    }
  }

  /** Buffers are unreferenced; those that are pinned are the ones of blocks below `k`,
      and no other block is cached. */
  ghost predicate PinnedBelow(bufs: seq<Buf>, refs: seq<set<int>>, k: int) {
    && |refs| == |bufs| && |Busy(bufs)| == k
    && (forall b :: 0 <= b < |bufs| ==> refs[b] == {} && bufs[b].refcnt == 0 && bufs[b].holder == NONE)
    && (forall b :: 0 <= b < |bufs| && bufs[b].dev == ROOTDEV ==> bufs[b].blockno < k)
  }

  /** A process reads a block that is not cached. */
  method ReadNew(c: Bcache, p: int, k: int) returns (b: int)
    requires c.Valid() && p != NONE && k in c.disk && 0 <= k < c.nbuf && PinnedBelow(c.bufs, c.refs, k)
    modifies c
    ensures c.Valid() && c.disk == old(c.disk) && 0 <= b < c.nbuf && Idle(old(c.bufs)[b])
    ensures c.bufs == old(c.bufs)[b := Buf(ROOTDEV, k, true, false, 1, p, c.bufs[b].data)]
    ensures c.refs == old(c.refs)[b := {p}]
  {
    b := Recycle(c, p, k);
    var taken := c.Acquire(p, b);
    c.Load(p, b);
  }

  method Recycle(c: Bcache, p: int, k: int) returns (b: int)
    requires c.Valid() && p != NONE && k in c.disk && 0 <= k < c.nbuf && PinnedBelow(c.bufs, c.refs, k)
    modifies c
    ensures c.Valid() && c.disk == old(c.disk) && 0 <= b < c.nbuf && Idle(old(c.bufs)[b])
    ensures c.bufs == old(c.bufs)[b := Buf(ROOTDEV, k, false, false, 1, NONE, c.bufs[b].data)]
    ensures c.refs == old(c.refs)[b := {p}]
  {
    IdleLeft(c.bufs);
    ghost var bufs0 := c.bufs;
    var r := c.Bget(p, k);
    b := r.b;
    assert !Holds(bufs0[b], k);
  }

  /** It logs the block and lets go. */
  method PinAndRelease(c: Bcache, p: int, b: int)
    requires c.Valid() && p != NONE && 0 <= b < c.nbuf && c.refs[b] == {p}
    requires c.bufs[b] == Buf(ROOTDEV, c.bufs[b].blockno, true, false, 1, p, c.bufs[b].data)
    modifies c
    ensures c.Valid() && c.disk == old(c.disk) && c.refs == old(c.refs)[b := {}]
    ensures c.bufs == old(c.bufs)[b := old(c.bufs)[b].(dirty := true, refcnt := 0, holder := NONE)]
  {
    assert {p} - {p} == {};
    c.Pin(p, b);
    var panic := c.Unlock(p, b);
    c.Unref(p, b);
  }

  method PinBlock(c: Bcache, p: int, k: int)
    requires c.Valid() && p != NONE && k in c.disk && 0 <= k < c.nbuf && PinnedBelow(c.bufs, c.refs, k)
    modifies c
    ensures c.Valid() && c.disk == old(c.disk) && PinnedBelow(c.bufs, c.refs, k + 1)
  {
    ghost var bufs0, refs0 := c.bufs, c.refs;
    var b := ReadNew(c, p, k);
    PinAndRelease(c, p, b);
    PinnedMore(bufs0, refs0, k, b, c.bufs, c.refs);
  }

  lemma PinnedMore(bufs: seq<Buf>, refs: seq<set<int>>, k: int, b: int, after: seq<Buf>, refs': seq<set<int>>)
    requires PinnedBelow(bufs, refs, k) && 0 <= b < |bufs| == |after| && Idle(bufs[b])
    requires after[b] == Buf(ROOTDEV, k, true, true, 0, NONE, after[b].data)
    requires |refs'| == |refs| && refs'[b] == {}
    requires forall c :: 0 <= c < |bufs| && c != b ==> after[c] == bufs[c] && refs'[c] == refs[c]
    ensures PinnedBelow(after, refs', k + 1)
  {
    forall c: nat | c < |bufs| && c != b ensures c in Busy(after) <==> c in Busy(bufs) { }
    assert b in Busy(after) && b !in Busy(bufs);
    assert Busy(after) == Busy(bufs) + {b};
  }

  /** As many logged blocks as there are buffers leave none for a block of the log, so
      the first bread of write_log panics.  (NBUF is LOGSIZE.) */
  method PinAll(nbuf: nat, contents: map<int, Block>, p: int) returns (c: Bcache, r: Got)
    requires p != NONE && forall n :: 0 <= n <= nbuf ==> n in contents
    ensures fresh(c) && c.Valid() && c.nbuf == nbuf && |Busy(c.bufs)| == nbuf
    ensures r == NoBuffers
  {
    c := new Bcache(nbuf, contents);
    assert Busy(c.bufs) == {};
    var k := 0;
    while k < nbuf
      invariant 0 <= k <= nbuf == c.nbuf && fresh(c) && c.Valid() && c.disk == contents
      invariant PinnedBelow(c.bufs, c.refs, k)
    {
      PinBlock(c, p, k);
      k := k + 1;
    }
    IdleLeft(c.bufs);
    r := c.Bget(p, nbuf);
  }
}
