/** The in-memory log over a disk: log_write, commit and recovery. */
module LogDevice {
  import opened RedoLog

  datatype Status = Done | Panic(message: string)

  /** The blocks of `v` with those of the cache over them. */
  function Overlay(v: map<int, Block>, dirty: Disk): map<int, Block> {
    map b | b in v :: if b in dirty then dirty[b] else v[b]
  }

  lemma OverlayMore(v: map<int, Block>, dirty: Disk, b: int, data: Block)
    requires b in v
    ensures Overlay(v, dirty[b := data]) == Overlay(v, dirty)[b := data]
  {
  }

  class Log {
    const l: Layout
    var disk: Disk
    /** Contents of cached blocks that differ from the disk (B_DIRTY). */
    var dirty: Disk
    /** The in-memory header. */
    var n: int
    const block: array<int>
    /** Operations between begin_op and end_op. */
    var outstanding: int
    /** The disk after each block write, oldest first: the points at which a crash
        can cut the machine off. */
    ghost var past: seq<Disk>

    ghost predicate Memory()
      reads this, block
    {
      && l.Ok() && Sound(l, disk)
      && block.Length == l.capacity && 0 <= n <= l.Room()
      && Listable(l, block[..n])
      && (forall b :: b in dirty ==> l.Home(b) && |dirty[b]| == l.words)
    }

    /** Outside commit: the log on disk is empty and exactly the listed blocks are
        dirty in the cache. */
    ghost predicate Valid()
      reads this, block
    {
      && Memory() && Clean(l, disk)
      && (forall b :: b in dirty <==> b in block[..n])
    }

    ghost function Vals(): seq<Block>
      requires Valid()
      reads this, block
    {
      seq(n, i requires 0 <= i < n && 0 <= n <= l.Room() && block.Length == l.capacity
               requires forall b :: b in dirty <==> b in block[..n]
               reads this, block => assert block[i] == block[..n][i]; dirty[block[i]])
    }

    /** The home blocks as readers of the cache see them. */
    ghost function Current(): map<int, Block>
      requires Memory()
      reads this, block
    {
      Overlay(View(l, disk), dirty)
    }

    constructor (l: Layout, disk: Disk)
      requires Sound(l, disk)
      ensures this.l == l && this.disk == disk && dirty == map[] && n == 0 && outstanding == 0 && past == []
      ensures block.Length == l.capacity && fresh(block)
      ensures Memory()
    {
      this.l, this.disk, dirty, n, outstanding, past := l, disk, map[], 0, 0, [];
      block := new int[l.capacity];
    }

    method Bread(b: int) returns (data: Block)
      requires b in disk
      ensures data == if b in dirty then dirty[b] else disk[b]
    {
      data := if b in dirty then dirty[b] else disk[b];
    }

    method Bwrite(b: int, data: Block)
      requires b in disk
      modifies this`disk, this`dirty, this`past
      ensures disk == old(disk)[b := data]
      ensures dirty == old(dirty) - {b}
      ensures past == old(past) + [disk]
    {
      disk := disk[b := data];
      dirty := dirty - {b};
      past := past + [disk];
    }

    /** The caller has put `data` into the cached block `b`. */
    method LogWrite(b: int, data: Block) returns (r: Status)
      requires Valid() && l.Home(b) && |data| == l.words
      modifies this`n, this`dirty, block
      ensures Valid()
      ensures r.Panic? <==> old(n) >= l.Room() || outstanding < 1
      ensures r.Panic? ==> unchanged(this) && unchanged(block)
      ensures r.Done? ==>
                && Current() == old(Current())[b := data]
                && dirty == old(dirty)[b := data]
                && block[..n] == if b in old(block[..n]) then old(block[..n]) else old(block[..n]) + [b]
    {
      if n >= l.capacity || n >= l.size - 1 {
        return Panic("too big a transaction");
      }
      if outstanding < 1 {
        return Panic("log_write outside of trans");
      }
      ghost var bs := block[..n];
      Append(b);
      ListMore(l, bs, b);
      OverlayMore(View(l, disk), dirty, b, data);
      dirty := dirty[b := data];
      r := Done;
    }

    /** The block is listed, if it was not before. */
    method Append(b: int)
      requires 0 <= n < block.Length
      modifies this`n, block
      ensures 0 <= n <= block.Length
      ensures block[..n] == if b in old(block[..n]) then old(block[..n]) else old(block[..n]) + [b]
    {
      var i := 0;
      while i < n
        invariant 0 <= i <= n && b !in block[..i]
      {
        if block[i] == b { break; }
        i := i + 1;
      }
      ghost var before := block[..n];
      block[i] := b;
      if i == n {
        n := n + 1;
        assert block[..n] == before + [b];
      } else {
        assert before[i] == b;
        assert block[..n] == before;
      }
    }

    /** Copies the modified blocks from the cache to the log. */
    method WriteLog()
      requires Valid()
      modifies this`disk, this`dirty, this`past
      ensures disk == CopyToLog(l, old(disk), old(Vals()), n)
      ensures dirty == old(dirty)
      ensures past == old(past) + CopyTrail(l, old(disk), old(Vals()), n)
    {
      ghost var d0, vals, p0, clean := disk, Vals(), past, dirty;
      var tail := 0;
      while tail < n
        invariant 0 <= tail <= n && dirty == clean
        invariant disk == CopyToLog(l, d0, vals, tail) && disk.Keys == d0.Keys
        invariant past == p0 + CopyTrail(l, d0, vals, tail)
      {
        assert block[tail] in clean && vals[tail] == clean[block[tail]] by {
          assert block[tail] == block[..n][tail];
        }
        CopyOne(tail, d0, vals, p0);
        tail := tail + 1;
      }
    }

    /** One block goes from the cache to the log, `vals[tail]` of them all. */
    method CopyOne(tail: int, ghost d0: Disk, ghost vals: seq<Block>, ghost p0: seq<Disk>)
      requires 0 <= tail < block.Length && block[tail] in dirty && block[tail] in disk
      requires l.start + tail + 1 in disk && l.start + tail + 1 !in dirty
      requires tail < |vals| && dirty[block[tail]] == vals[tail]
      requires disk == CopyToLog(l, d0, vals, tail) && past == p0 + CopyTrail(l, d0, vals, tail)
      modifies this`disk, this`dirty, this`past
      ensures dirty == old(dirty) && disk.Keys == old(disk.Keys)
      ensures disk == CopyToLog(l, d0, vals, tail + 1)
      ensures past == p0 + CopyTrail(l, d0, vals, tail + 1)
    {
      var from := Bread(block[tail]);
      assert dirty - {l.start + tail + 1} == dirty;
      Bwrite(l.start + tail + 1, from);
    }

    /** Writes the in-memory header over the header block. */
    method WriteHead()
      requires Memory()
      modifies this`disk, this`dirty, this`past
      ensures disk == SetHead(l, old(disk), block[..n])
      ensures dirty == old(dirty)
      ensures past == old(past) + [disk]
    {
      var buf := Bread(l.start);
      ghost var h := buf;
      buf := buf[0 := n];
      var i := 0;
      while i < n
        invariant 0 <= i <= n && |buf| == |h|
        invariant buf == [n] + block[..i] + h[1 + i..]
      {
        assert block[..i + 1] == block[..i] + [block[i]];
        assert buf[1 + i := block[i]] == [n] + block[..i + 1] + h[2 + i..] by {
          NextWord(n, block[..i], block[i], h);
        }
        buf := buf[1 + i := block[i]];
        i := i + 1;
      }
      assert buf == EncodeHead(h, block[..n]);
      assert dirty - {l.start} == dirty;
      Bwrite(l.start, buf);
    }

    /** Copies the logged blocks to their home locations. */
    method InstallTrans()
      requires Memory() && Pending(l, disk) == block[..n]
      requires forall b :: b in dirty ==> b in block[..n]
      modifies this`disk, this`dirty, this`past
      ensures disk == Install(l, old(disk), block[..n], n)
      ensures dirty == map[]
      ensures past == old(past) + InstallTrail(l, old(disk), block[..n], n)
    {
      ghost var d0, bs, p0 := disk, block[..n], past;
      var tail := 0;
      while tail < n
        invariant 0 <= tail <= n
        invariant disk == Install(l, d0, bs, tail)
        invariant forall b :: b in dirty ==> l.Home(b) && b in bs && b !in bs[..tail]
        invariant past == p0 + InstallTrail(l, d0, bs, tail)
      {
        assert bs[..tail + 1] == bs[..tail] + [block[tail]];
        InstallOne(tail);
        tail := tail + 1;
      }
      assert bs[..tail] == bs;
      assert forall b :: b !in dirty;
    }

    /** One block goes from the log to its home. */
    method InstallOne(tail: int)
      requires 0 <= tail < block.Length && block[tail] in disk
      requires l.start + tail + 1 in disk && l.start + tail + 1 !in dirty
      modifies this`disk, this`dirty, this`past
      ensures disk == old(disk)[block[tail] := old(disk)[l.start + tail + 1]]
      ensures dirty == old(dirty) - {block[tail]} && past == old(past) + [disk]
    {
      var data := Bread(l.start + tail + 1);
      Bwrite(block[tail], data);
    }

    /** Reads the header from disk. */
    method ReadHead()
      requires Memory() && dirty == map[]
      modifies this`n, block
      ensures Memory() && block[..n] == Pending(l, disk)
    {
      var buf := Bread(l.start);
      n := buf[0];
      var i := 0;
      while i < n
        invariant 0 <= i <= n == buf[0]
        invariant block[..i] == Targets(buf)[..i]
      {
        block[i] := buf[1 + i];
        assert block[..i + 1] == block[..i] + [Targets(buf)[i]];
        i := i + 1;
      }
      assert block[..n] == Targets(buf);
    }

    lemma CurrentAfter(d0: Disk, bs: seq<int>, vals: seq<Block>, cached: Disk)
      requires Memory() && (forall b :: b !in dirty) && Txn(l, d0, bs, vals)
      requires View(l, disk) == Apply(View(l, d0), bs, vals)
      requires forall b :: b in cached <==> b in bs
      requires forall i :: 0 <= i < |bs| ==> bs[i] in cached && cached[bs[i]] == vals[i]
      ensures Current() == Overlay(View(l, d0), cached)
    {
    }

    /** The transaction is on disk from the header write on. */
    method WriteAhead()
      requires Valid() && n > 0
      modifies this`disk, this`dirty, this`past
      ensures Memory() && dirty == old(dirty)
      ensures old(Txn(l, disk, block[..n], Vals()))
      ensures var c0 := CopyToLog(l, old(disk), old(Vals()), n);
              && Sound(l, c0) && disk == SetHead(l, c0, block[..n]) && Pending(l, disk) == block[..n]
      ensures past == old(past) + CopyTrail(l, old(disk), old(Vals()), n) + [disk]
    {
      ghost var d0, bs, vals := disk, block[..n], Vals();
      WriteLog();
      CommitHead(l, d0, bs, vals);
      WriteHead();
    }

    /** The four stretches of block writes of a non-empty commit. */
    method WriteTransaction()
      requires Valid() && n > 0
      modifies this`disk, this`dirty, this`past, this`n
      ensures n == 0 && dirty == map[]
      ensures old(Txn(l, disk, block[..n], Vals()))
      ensures past == old(past) + CommitTrail(l, old(disk), old(block[..n]), old(Vals()))
      ensures past != old(past) && disk == past[|past|-1]
    {
      ghost var d0, bs, vals, p0 := disk, block[..n], Vals(), past;
      WriteAhead();
      ghost var c := disk;
      InstallTrans();
      n := 0;
      InstallSound(l, c, bs, |bs|);
      WriteHead();
      CommitTrailJoin(l, d0, bs, vals, c, p0);
    }

    lemma Committed(d0: Disk, bs: seq<int>, vals: seq<Block>, cached: Disk)
      requires Txn(l, d0, bs, vals) && n == 0 && block.Length == l.capacity && forall b :: b !in dirty
      requires disk == CommitAt(l, d0, bs, vals, CommitLength(|bs|))
      requires forall b :: b in cached <==> b in bs
      requires forall i :: 0 <= i < |bs| ==> bs[i] in cached && cached[bs[i]] == vals[i]
      ensures Valid() && dirty == map[]
      ensures HomeBlocks(l, disk) == Current()
      ensures Current() == Overlay(View(l, d0), cached)
    {
      CommitDone(l, d0, bs, vals);
      Settled();
      CurrentAfter(d0, bs, vals, cached);
    }

    /** With an empty list and nothing dirty, readers see the home blocks. */
    lemma Settled()
      requires l.Ok() && Sound(l, disk) && Clean(l, disk)
      requires n == 0 && block.Length == l.capacity && forall b :: b !in dirty
      ensures Valid() && dirty == map[]
      ensures HomeBlocks(l, disk) == Current()
    {
      CleanView(l, disk);
    }

    /** Makes the listed blocks durable.  The disk passes through exactly the states
        of `CommitAt`. */
    method Commit()
      requires Valid()
      modifies this`disk, this`dirty, this`past, this`n
      ensures Valid() && n == 0 && dirty == map[]
      ensures old(Txn(l, disk, block[..n], Vals()))
      ensures disk == CommitAt(l, old(disk), old(block[..n]), old(Vals()), CommitLength(old(n)))
      ensures past == old(past) + CommitTrail(l, old(disk), old(block[..n]), old(Vals()))
      ensures HomeBlocks(l, disk) == Current() == old(Current())
    {
      ghost var d0, bs, vals, cached := disk, block[..n], Vals(), dirty;
      CommitTrailAt(l, d0, bs, vals, CommitLength(n));
      assert n == 0 ==> forall b :: b !in dirty;
      if n > 0 {
        WriteTransaction();
      }
      Committed(d0, bs, vals, cached);
    }

    /** Run once at boot, with an empty cache.  The disk passes through exactly the
        states of `RecoverAt`. */
    method RecoverFromLog()
      requires Memory() && dirty == map[]
      modifies this`disk, this`dirty, this`past, this`n, block
      ensures Valid() && n == 0
      ensures disk == RecoverAt(l, old(disk), RecoverLength(l, old(disk)))
      ensures past == old(past) + RecoverTrail(l, old(disk))
      ensures HomeBlocks(l, disk) == Current() == old(View(l, disk))
    {
      ghost var d0 := disk;
      ReadHead();
      InstallTrans();
      InstallSound(l, d0, Pending(l, d0), |Pending(l, d0)|);
      n := 0;
      WriteHead();
      Recovered(d0);
    }

    lemma Recovered(d0: Disk)
      requires Sound(l, d0) && n == 0 && block.Length == l.capacity && forall b :: b !in dirty
      requires disk == RecoverAt(l, d0, RecoverLength(l, d0))
      ensures Valid() && HomeBlocks(l, disk) == Current() == View(l, d0)
    {
      RecoverAtomic(l, d0, RecoverLength(l, d0));
    }
  }

  lemma ListMore(l: Layout, bs: seq<int>, b: int)
    requires l.size >= 1 && Listable(l, bs) && |bs| < l.Room() && l.Home(b)
    ensures Listable(l, if b in bs then bs else bs + [b])
  {
  }

  lemma NextWord(n: int, bs: seq<int>, b: int, h: seq<int>)
    requires |bs| + 1 < |h|
    ensures ([n] + bs + h[1 + |bs|..])[1 + |bs| := b] == [n] + (bs + [b]) + h[2 + |bs|..]
  {
  }
}
