/** The on-disk redo log as a function of block writes.  One block write is
    atomic; a crash may fall between any two of them. */
module RedoLog {

  /** A block is a sequence of 32-bit words. */
  type Block = seq<int>

  type Disk = map<int, Block>

  /** `start` is the header block and `start + 1 .. start + size` the logged
      blocks.  `capacity` is the length of the header's block array. */
  datatype Layout = Layout(start: nat, size: nat, capacity: nat, words: nat, blocks: nat) {
    ghost predicate Ok() {
      size >= 1 && start + size <= blocks && capacity + 1 < words
    }

    /** How many blocks one transaction can hold. */
    function Room(): nat
      requires size >= 1
    {
      if capacity <= size - 1 then capacity else size - 1
    }

    predicate Home(b: int) {
      0 <= b < blocks && !(start <= b < start + size)
    }
  }

  // ----- the header block -----

  function Count(h: Block): nat {
    if h == [] || h[0] < 0 then 0 else h[0]
  }

  function Targets(h: Block): seq<int> {
    if 1 + Count(h) <= |h| then h[1..1 + Count(h)] else []
  }

  /** The header words overwritten in place; words past the list keep their value. */
  function EncodeHead(h: Block, bs: seq<int>): Block
    requires 1 + |bs| <= |h|
  {
    [|bs|] + bs + h[1 + |bs|..]
  }

  lemma EncodeDecode(h: Block, bs: seq<int>)
    requires 1 + |bs| <= |h|
    ensures Count(EncodeHead(h, bs)) == |bs| && Targets(EncodeHead(h, bs)) == bs
    ensures |EncodeHead(h, bs)| == |h|
  {
    assert EncodeHead(h, bs)[1..1 + |bs|] == bs;
  }

  ghost predicate Distinct(bs: seq<int>) {
    forall i, j :: 0 <= i < j < |bs| ==> bs[i] != bs[j]
  }

  /** Block numbers that one transaction may list. */
  ghost predicate Listable(l: Layout, bs: seq<int>)
    requires l.size >= 1
  {
    && |bs| <= l.Room() && Distinct(bs)
    && forall i :: 0 <= i < |bs| ==> l.Home(bs[i])
  }

  ghost predicate Sound(l: Layout, d: Disk) {
    && l.Ok()
    && (forall b :: 0 <= b < l.blocks ==> b in d && |d[b]| == l.words)
    && 0 <= d[l.start][0] <= l.Room()
    && Listable(l, Targets(d[l.start]))
  }

  ghost function Pending(l: Layout, d: Disk): seq<int>
    requires Sound(l, d)
  {
    Targets(d[l.start])
  }

  // ----- meaning of a disk -----

  ghost function IndexOf(bs: seq<int>, b: int): (i: nat)
    requires b in bs
    ensures i < |bs| && bs[i] == b
  {
    var i :| 0 <= i < |bs| && bs[i] == b; i
  }

  lemma IndexUnique(bs: seq<int>, i: nat)
    requires Distinct(bs) && i < |bs|
    ensures bs[i] in bs && IndexOf(bs, bs[i]) == i
  {
  }

  /** What the disk says: the home blocks as they will be once the logged blocks
      named by the header have been installed. */
  ghost function View(l: Layout, d: Disk): map<int, Block>
    requires Sound(l, d)
  {
    map b | 0 <= b < l.blocks && l.Home(b) :: ViewAt(l, d, b)
  }

  ghost function ViewAt(l: Layout, d: Disk, b: int): Block
    requires Sound(l, d) && l.Home(b)
  {
    var bs := Pending(l, d);
    if b in bs then d[l.start + 1 + IndexOf(bs, b)] else d[b]
  }

  /** The home blocks as they stand. */
  ghost function HomeBlocks(l: Layout, d: Disk): map<int, Block>
    requires Sound(l, d)
  {
    map b | 0 <= b < l.blocks && l.Home(b) :: d[b]
  }

  ghost predicate Clean(l: Layout, d: Disk)
    requires Sound(l, d)
  {
    Pending(l, d) == []
  }

  // ----- the write sequences -----

  /** After copying the first `k` modified blocks to the log. */
  function CopyToLog(l: Layout, d: Disk, vals: seq<Block>, k: nat): Disk
    requires k <= |vals|
  {
    if k == 0 then d else CopyToLog(l, d, vals, k - 1)[l.start + k := vals[k-1]]
  }

  function SetHead(l: Layout, d: Disk, bs: seq<int>): Disk
    requires l.start in d && 1 + |bs| <= |d[l.start]|
  {
    d[l.start := EncodeHead(d[l.start], bs)]
  }

  ghost predicate LogPresent(l: Layout, d: Disk, n: nat) {
    forall b :: l.start < b <= l.start + n ==> b in d
  }

  /** After installing the first `k` logged blocks. */
  function Install(l: Layout, d: Disk, bs: seq<int>, k: nat): (r: Disk)
    requires k <= |bs| && LogPresent(l, d, |bs|) && forall i :: 0 <= i < |bs| ==> bs[i] >= 0
    ensures d.Keys <= r.Keys
  {
    if k == 0 then d
    else
      var e := Install(l, d, bs, k - 1);
      e[bs[k-1] := e[l.start + k]]
  }

  /** Block writes of one commit of `n > 0` blocks: copy, header, install, header. */
  function CommitLength(n: nat): nat { if n == 0 then 0 else 2 * n + 2 }

  /** A transaction ready to commit on a clean disk. */
  ghost predicate Txn(l: Layout, d: Disk, bs: seq<int>, vals: seq<Block>) {
    && Sound(l, d) && Clean(l, d) && Listable(l, bs) && |vals| == |bs|
    && forall i :: 0 <= i < |vals| ==> |vals[i]| == l.words
  }

  /** The disk after `k` block writes of the commit. */
  ghost function CommitAt(l: Layout, d: Disk, bs: seq<int>, vals: seq<Block>, k: nat): Disk
    requires Txn(l, d, bs, vals) && k <= CommitLength(|bs|)
  {
    var n := |bs|;
    if k <= n then CopyToLog(l, d, vals, k)
    else
      CopySound(l, d, vals, n);
      var c := SetHead(l, CopyToLog(l, d, vals, n), bs);
      HeadSound(l, CopyToLog(l, d, vals, n), bs);
      if k <= 2 * n + 1 then Install(l, c, bs, k - n - 1)
      else
        InstallSound(l, c, bs, n);
        SetHead(l, Install(l, c, bs, n), [])
  }

  /** Block writes of one recovery. */
  ghost function RecoverLength(l: Layout, d: Disk): nat
    requires Sound(l, d)
  {
    |Pending(l, d)| + 1
  }

  /** The disk after `k` block writes of recovery. */
  ghost function RecoverAt(l: Layout, d: Disk, k: nat): Disk
    requires Sound(l, d) && k <= RecoverLength(l, d)
  {
    var bs := Pending(l, d);
    if k <= |bs| then Install(l, d, bs, k)
    else
      InstallSound(l, d, bs, |bs|);
      SetHead(l, Install(l, d, bs, |bs|), [])
  }

  // ----- each write keeps the disk sound -----

  /** Writing the log area of a clean disk changes nothing it says. */
  lemma {:induction false} CopySound(l: Layout, d: Disk, vals: seq<Block>, k: nat)
    requires Sound(l, d) && Clean(l, d) && k <= |vals| <= l.Room()
    requires forall i :: 0 <= i < |vals| ==> |vals[i]| == l.words
    ensures var e := CopyToLog(l, d, vals, k);
            && Sound(l, e) && Clean(l, e) && View(l, e) == View(l, d) && e[l.start] == d[l.start]
            && forall i :: 0 <= i < k ==> e[l.start + 1 + i] == vals[i]
  {
    if k > 0 {
      CopySound(l, d, vals, k - 1);
    }
  }

  /** Writing the header switches the meaning to the logged blocks. */
  lemma HeadSound(l: Layout, d: Disk, bs: seq<int>)
    requires Sound(l, d) && Listable(l, bs)
    ensures var e := SetHead(l, d, bs);
            && Sound(l, e) && Pending(l, e) == bs
            && forall b :: 0 <= b < l.blocks && b != l.start ==> e[b] == d[b]
  {
    EncodeDecode(d[l.start], bs);
  }

  /** Installing does not touch the log area, nor the lengths of blocks. */
  lemma {:induction false} InstallSound(l: Layout, d: Disk, bs: seq<int>, k: nat)
    requires Sound(l, d) && Pending(l, d) == bs && k <= |bs|
    ensures var e := Install(l, d, bs, k);
            && Sound(l, e) && Pending(l, e) == bs
            && forall b :: l.start <= b < l.start + l.size ==> e[b] == d[b]
  {
    if k > 0 {
      InstallSound(l, d, bs, k - 1);
    }
  }

  lemma {:induction false} InstallLog(l: Layout, d: Disk, bs: seq<int>, k: nat, j: nat)
    requires l.size >= 1 && Listable(l, bs) && LogPresent(l, d, |bs|) && k <= |bs| && 1 <= j <= |bs|
    ensures Install(l, d, bs, k)[l.start + j] == d[l.start + j]
  {
    if k > 0 { InstallLog(l, d, bs, k - 1, j); }
  }

  /** Home block `b` holds its logged value once its turn has come. */
  lemma {:induction false} InstallAt(l: Layout, d: Disk, bs: seq<int>, k: nat, b: int)
    requires l.size >= 1 && Listable(l, bs) && LogPresent(l, d, |bs|) && k <= |bs| && l.Home(b) && b in d
    ensures Install(l, d, bs, k)[b] ==
            if b in bs && IndexOf(bs, b) < k then d[l.start + 1 + IndexOf(bs, b)] else d[b]
  {
    if k > 0 {
      InstallAt(l, d, bs, k - 1, b);
      InstallLog(l, d, bs, k - 1, k);
      IndexUnique(bs, k - 1);
    }
  }

  lemma InstallView(l: Layout, d: Disk, bs: seq<int>, k: nat)
    requires Sound(l, d) && Pending(l, d) == bs && k <= |bs|
    ensures Sound(l, Install(l, d, bs, k)) && View(l, Install(l, d, bs, k)) == View(l, d)
  {
    InstallSound(l, d, bs, k);
    var e := Install(l, d, bs, k);
    forall b | 0 <= b < l.blocks && l.Home(b) ensures ViewAt(l, e, b) == ViewAt(l, d, b) {
      InstallViewAt(l, d, bs, k, b);
    }
  }

  lemma InstallViewAt(l: Layout, d: Disk, bs: seq<int>, k: nat, b: int)
    requires Sound(l, d) && Pending(l, d) == bs && k <= |bs| && l.Home(b)
    ensures Sound(l, Install(l, d, bs, k)) && ViewAt(l, Install(l, d, bs, k), b) == ViewAt(l, d, b)
  {
    InstallSound(l, d, bs, k);
    if b in bs {
      var i := IndexOf(bs, b);
      assert Install(l, d, bs, k)[l.start + 1 + i] == d[l.start + 1 + i];
    } else {
      InstallAt(l, d, bs, k, b);
    }
  }

  /** After the last install every home block holds what the disk says. */
  lemma InstalledView(l: Layout, d: Disk)
    requires Sound(l, d)
    ensures var bs := Pending(l, d); var e := Install(l, d, bs, |bs|);
            Sound(l, e) && HomeBlocks(l, e) == View(l, d)
  {
    var bs := Pending(l, d);
    var e := Install(l, d, bs, |bs|);
    InstallSound(l, d, bs, |bs|);
    forall b | 0 <= b < l.blocks && l.Home(b) ensures e[b] == ViewAt(l, d, b) {
      InstallAt(l, d, bs, |bs|, b);
    }
  }

  lemma CleanView(l: Layout, d: Disk)
    requires Sound(l, d) && Clean(l, d)
    ensures View(l, d) == HomeBlocks(l, d)
  {
  }

  /** Clearing the header after the last install loses nothing. */
  lemma ClearView(l: Layout, d: Disk)
    requires Sound(l, d)
    ensures var bs := Pending(l, d);
            var e := Install(l, d, bs, |bs|);
            && Sound(l, e) && Sound(l, SetHead(l, e, [])) && Clean(l, SetHead(l, e, []))
            && View(l, SetHead(l, e, [])) == View(l, d) == HomeBlocks(l, SetHead(l, e, []))
  {
    var bs := Pending(l, d);
    var e := Install(l, d, bs, |bs|);
    InstalledView(l, d);
    HeadSound(l, e, []);
    var c := SetHead(l, e, []);
    CleanView(l, c);
    assert HomeBlocks(l, c) == HomeBlocks(l, e);
  }

  // ----- atomicity -----

  /** The effect of a transaction on the meaning of the disk. */
  ghost function Apply(v: map<int, Block>, bs: seq<int>, vals: seq<Block>): map<int, Block>
    requires |bs| == |vals|
  {
    map b | b in v :: if b in bs then vals[IndexOf(bs, b)] else v[b]
  }

  lemma CommitHead(l: Layout, d: Disk, bs: seq<int>, vals: seq<Block>)
    requires Txn(l, d, bs, vals)
    ensures var c0 := CopyToLog(l, d, vals, |bs|);
            && Sound(l, c0)
            && var c := SetHead(l, c0, bs);
               Sound(l, c) && Pending(l, c) == bs && View(l, c) == Apply(View(l, d), bs, vals)
  {
    var c0 := CopyToLog(l, d, vals, |bs|);
    CopySound(l, d, vals, |bs|);
    HeadSound(l, c0, bs);
    forall b | 0 <= b < l.blocks && l.Home(b)
      ensures View(l, SetHead(l, c0, bs))[b] == Apply(View(l, d), bs, vals)[b]
    {
      CommittedAt(l, d, bs, vals, b);
    }
  }

  lemma CommittedAt(l: Layout, d: Disk, bs: seq<int>, vals: seq<Block>, b: int)
    requires Txn(l, d, bs, vals) && l.Home(b)
    ensures var c0 := CopyToLog(l, d, vals, |bs|);
            && Sound(l, c0) && Sound(l, SetHead(l, c0, bs))
            && View(l, SetHead(l, c0, bs))[b] == if b in bs then vals[IndexOf(bs, b)] else View(l, d)[b]
  {
    var c0 := CopyToLog(l, d, vals, |bs|);
    CopySound(l, d, vals, |bs|);
    HeadAt(l, c0, bs, b);
    CleanAt(l, d, b);
    CleanAt(l, c0, b);
    assert View(l, c0)[b] == View(l, d)[b];
  }

  lemma HeadAt(l: Layout, d: Disk, bs: seq<int>, b: int)
    requires Sound(l, d) && Listable(l, bs) && l.Home(b)
    ensures Sound(l, SetHead(l, d, bs))
    ensures View(l, SetHead(l, d, bs))[b] == if b in bs then d[l.start + 1 + IndexOf(bs, b)] else d[b]
  {
    HeadSound(l, d, bs);
    var e := SetHead(l, d, bs);
    assert View(l, e)[b] == ViewAt(l, e, b);
  }

  lemma CleanAt(l: Layout, d: Disk, b: int)
    requires Sound(l, d) && Clean(l, d) && l.Home(b)
    ensures View(l, d)[b] == d[b]
  {
    assert View(l, d)[b] == ViewAt(l, d, b);
  }

  /** Crash atomicity of commit: a disk cut off after `k` writes says what it said
      before the transaction, up to and including the last log copy, and what the
      transaction makes of it from the header write on. */
  lemma CommitAtomic(l: Layout, d: Disk, bs: seq<int>, vals: seq<Block>, k: nat)
    requires Txn(l, d, bs, vals) && k <= CommitLength(|bs|)
    ensures Sound(l, CommitAt(l, d, bs, vals, k))
    ensures View(l, CommitAt(l, d, bs, vals, k)) ==
            if k <= |bs| then View(l, d) else Apply(View(l, d), bs, vals)
    ensures k == CommitLength(|bs|) > 0 ==> Clean(l, CommitAt(l, d, bs, vals, k))
  {
    var n := |bs|;
    if k <= n {
      CommitCopies(l, d, bs, vals, k);
    } else if k <= 2 * n + 1 {
      CommitInstalls(l, d, bs, vals, k);
    } else {
      CommitClears(l, d, bs, vals);
    }
  }

  lemma CommitCopies(l: Layout, d: Disk, bs: seq<int>, vals: seq<Block>, k: nat)
    requires Txn(l, d, bs, vals) && k <= |bs| && k <= CommitLength(|bs|)
    ensures Sound(l, CommitAt(l, d, bs, vals, k)) && Clean(l, CommitAt(l, d, bs, vals, k))
    ensures View(l, CommitAt(l, d, bs, vals, k)) == View(l, d)
  {
    CopySound(l, d, vals, k);
  }

  /** What `CommitAt` is from the header write on. */
  lemma CommitAtInstall(l: Layout, d: Disk, bs: seq<int>, vals: seq<Block>, k: nat)
    requires Txn(l, d, bs, vals) && |bs| < k <= 2 * |bs| + 1 && k <= CommitLength(|bs|)
    ensures var c0 := CopyToLog(l, d, vals, |bs|);
            && Sound(l, c0) && Sound(l, SetHead(l, c0, bs)) && Pending(l, SetHead(l, c0, bs)) == bs
            && CommitAt(l, d, bs, vals, k) == Install(l, SetHead(l, c0, bs), bs, k - |bs| - 1)
  {
    CopySound(l, d, vals, |bs|);
    HeadSound(l, CopyToLog(l, d, vals, |bs|), bs);
  }

  lemma CommitInstalls(l: Layout, d: Disk, bs: seq<int>, vals: seq<Block>, k: nat)
    requires Txn(l, d, bs, vals) && |bs| < k <= 2 * |bs| + 1 && k <= CommitLength(|bs|)
    ensures Sound(l, CommitAt(l, d, bs, vals, k))
    ensures View(l, CommitAt(l, d, bs, vals, k)) == Apply(View(l, d), bs, vals)
  {
    CommitHead(l, d, bs, vals);
    var c := SetHead(l, CopyToLog(l, d, vals, |bs|), bs);
    InstallView(l, c, bs, k - |bs| - 1);
    assert CommitAt(l, d, bs, vals, k) == Install(l, c, bs, k - |bs| - 1) by {
      CommitAtInstall(l, d, bs, vals, k);
    }
  }

  lemma CommitAtEnd(l: Layout, d: Disk, bs: seq<int>, vals: seq<Block>)
    requires Txn(l, d, bs, vals) && bs != []
    ensures var c0 := CopyToLog(l, d, vals, |bs|);
            && Sound(l, c0) && Sound(l, SetHead(l, c0, bs)) && Pending(l, SetHead(l, c0, bs)) == bs
            && Sound(l, Install(l, SetHead(l, c0, bs), bs, |bs|))
            && CommitAt(l, d, bs, vals, CommitLength(|bs|)) == SetHead(l, Install(l, SetHead(l, c0, bs), bs, |bs|), [])
  {
    CopySound(l, d, vals, |bs|);
    HeadSound(l, CopyToLog(l, d, vals, |bs|), bs);
    InstallSound(l, SetHead(l, CopyToLog(l, d, vals, |bs|), bs), bs, |bs|);
  }

  lemma CommitClears(l: Layout, d: Disk, bs: seq<int>, vals: seq<Block>)
    requires Txn(l, d, bs, vals) && bs != []
    ensures var e := CommitAt(l, d, bs, vals, CommitLength(|bs|));
            Sound(l, e) && Clean(l, e) && View(l, e) == Apply(View(l, d), bs, vals)
  {
    CommitHead(l, d, bs, vals);
    CommitAtEnd(l, d, bs, vals);
    ClearView(l, SetHead(l, CopyToLog(l, d, vals, |bs|), bs));
  }

  /** A finished commit. */
  lemma CommitDone(l: Layout, d: Disk, bs: seq<int>, vals: seq<Block>)
    requires Txn(l, d, bs, vals)
    ensures var e := CommitAt(l, d, bs, vals, CommitLength(|bs|));
            Sound(l, e) && Clean(l, e) && View(l, e) == Apply(View(l, d), bs, vals)
  {
    CommitAtomic(l, d, bs, vals, CommitLength(|bs|));
  }

  /** Recovery cut off anywhere keeps the meaning; finished, it leaves a clean disk
      whose home blocks are that meaning. */
  lemma RecoverAtomic(l: Layout, d: Disk, k: nat)
    requires Sound(l, d) && k <= RecoverLength(l, d)
    ensures Sound(l, RecoverAt(l, d, k)) && View(l, RecoverAt(l, d, k)) == View(l, d)
    ensures k == RecoverLength(l, d) ==>
              Clean(l, RecoverAt(l, d, k)) && HomeBlocks(l, RecoverAt(l, d, k)) == View(l, d)
  {
    if k <= |Pending(l, d)| {
      InstallView(l, d, Pending(l, d), k);
    } else {
      ClearView(l, d);
    }
  }

  // ----- the same writes as sequences of disks -----

  function CopyTrail(l: Layout, d: Disk, vals: seq<Block>, k: nat): seq<Disk>
    requires k <= |vals|
  {
    if k == 0 then [] else CopyTrail(l, d, vals, k - 1) + [CopyToLog(l, d, vals, k)]
  }

  function InstallTrail(l: Layout, d: Disk, bs: seq<int>, k: nat): seq<Disk>
    requires k <= |bs| && LogPresent(l, d, |bs|) && forall i :: 0 <= i < |bs| ==> bs[i] >= 0
  {
    if k == 0 then [] else InstallTrail(l, d, bs, k - 1) + [Install(l, d, bs, k)]
  }

  /** The disk after each block write of a commit, oldest first. */
  ghost function CommitTrail(l: Layout, d: Disk, bs: seq<int>, vals: seq<Block>): seq<Disk>
    requires Txn(l, d, bs, vals)
  {
    if bs == [] then []
    else
      CommitHead(l, d, bs, vals);
      var c := SetHead(l, CopyToLog(l, d, vals, |bs|), bs);
      InstallSound(l, c, bs, |bs|);
      CopyTrail(l, d, vals, |bs|) + [c] + InstallTrail(l, c, bs, |bs|)
        + [SetHead(l, Install(l, c, bs, |bs|), [])]
  }

  lemma CommitTrailJoin(l: Layout, d: Disk, bs: seq<int>, vals: seq<Block>, c: Disk, p0: seq<Disk>)
    requires Txn(l, d, bs, vals) && bs != []
    requires Sound(l, CopyToLog(l, d, vals, |bs|))
    requires c == SetHead(l, CopyToLog(l, d, vals, |bs|), bs) && Sound(l, c) && Pending(l, c) == bs
    ensures Sound(l, Install(l, c, bs, |bs|))
    ensures (((p0 + CopyTrail(l, d, vals, |bs|)) + [c]) + InstallTrail(l, c, bs, |bs|))
              + [SetHead(l, Install(l, c, bs, |bs|), [])]
            == p0 + CommitTrail(l, d, bs, vals)
  {
    InstallSound(l, c, bs, |bs|);
  }

  /** The disk after each block write of a recovery, oldest first. */
  ghost function RecoverTrail(l: Layout, d: Disk): seq<Disk>
    requires Sound(l, d)
  {
    var bs := Pending(l, d);
    InstallSound(l, d, bs, |bs|);
    InstallTrail(l, d, bs, |bs|) + [SetHead(l, Install(l, d, bs, |bs|), [])]
  }

  lemma {:induction false} CopyTrailAt(l: Layout, d: Disk, vals: seq<Block>, k: nat, i: nat)
    requires k <= |vals|
    ensures |CopyTrail(l, d, vals, k)| == k
    ensures 1 <= i <= k ==> CopyTrail(l, d, vals, k)[i-1] == CopyToLog(l, d, vals, i)
  {
    if k > 0 { CopyTrailAt(l, d, vals, k - 1, i); }
  }

  lemma {:induction false} InstallTrailAt(l: Layout, d: Disk, bs: seq<int>, k: nat, i: nat)
    requires k <= |bs| && LogPresent(l, d, |bs|) && forall i :: 0 <= i < |bs| ==> bs[i] >= 0
    ensures |InstallTrail(l, d, bs, k)| == k
    ensures 1 <= i <= k ==> InstallTrail(l, d, bs, k)[i-1] == Install(l, d, bs, i)
  {
    if k > 0 { InstallTrailAt(l, d, bs, k - 1, i); }
  }

  lemma JoinAt<T>(r: seq<T>, p: seq<T>, x: T, q: seq<T>, y: T, i: nat)
    requires r == p + [x] + q + [y]
    ensures |r| == |p| + |q| + 2
    ensures i < |r| ==> r[i] == if i < |p| then p[i] else if i == |p| then x
                                else if i <= |p| + |q| then q[i - |p| - 1] else y
  {
  }

  /** The parts of a commit's trail. */
  lemma TrailIs(l: Layout, d: Disk, bs: seq<int>, vals: seq<Block>, i: nat) returns (c: Disk, last: Disk)
    requires Txn(l, d, bs, vals) && i < CommitLength(|bs|)
    ensures Sound(l, CopyToLog(l, d, vals, |bs|)) && c == SetHead(l, CopyToLog(l, d, vals, |bs|), bs)
    ensures Sound(l, c) && Pending(l, c) == bs
    ensures Sound(l, Install(l, c, bs, |bs|)) && last == SetHead(l, Install(l, c, bs, |bs|), [])
    ensures |CommitTrail(l, d, bs, vals)| == CommitLength(|bs|)
    ensures |CopyTrail(l, d, vals, |bs|)| == |bs| && |InstallTrail(l, c, bs, |bs|)| == |bs|
    ensures CommitTrail(l, d, bs, vals)[i] ==
            if i < |bs| then CopyTrail(l, d, vals, |bs|)[i] else if i == |bs| then c
            else if i <= 2 * |bs| then InstallTrail(l, c, bs, |bs|)[i - |bs| - 1] else last
  {
    CommitHead(l, d, bs, vals);
    c := SetHead(l, CopyToLog(l, d, vals, |bs|), bs);
    InstallSound(l, c, bs, |bs|);
    last := SetHead(l, Install(l, c, bs, |bs|), []);
    CopyTrailAt(l, d, vals, |bs|, 0);
    InstallTrailAt(l, c, bs, |bs|, 0);
    JoinAt(CommitTrail(l, d, bs, vals), CopyTrail(l, d, vals, |bs|), c, InstallTrail(l, c, bs, |bs|), last, i);
  }

  lemma TrailCopies(l: Layout, d: Disk, bs: seq<int>, vals: seq<Block>, i: nat)
    requires Txn(l, d, bs, vals) && 1 <= i <= |bs| && i <= CommitLength(|bs|)
    ensures |CommitTrail(l, d, bs, vals)| == CommitLength(|bs|)
    ensures CommitTrail(l, d, bs, vals)[i-1] == CommitAt(l, d, bs, vals, i)
  {
    var _, _ := TrailIs(l, d, bs, vals, i - 1);
    CopyTrailAt(l, d, vals, |bs|, i);
  }

  lemma TrailInstalls(l: Layout, d: Disk, bs: seq<int>, vals: seq<Block>, i: nat)
    requires Txn(l, d, bs, vals) && |bs| < i <= 2 * |bs| + 1 && i <= CommitLength(|bs|)
    ensures |CommitTrail(l, d, bs, vals)| == CommitLength(|bs|)
    ensures CommitTrail(l, d, bs, vals)[i-1] == CommitAt(l, d, bs, vals, i)
  {
    var k := i - |bs| - 1;
    CommitAtInstall(l, d, bs, vals, i);
    TrailInstallAt(l, d, bs, vals, k);
  }

  lemma TrailInstallAt(l: Layout, d: Disk, bs: seq<int>, vals: seq<Block>, k: nat)
    requires Txn(l, d, bs, vals) && bs != [] && k <= |bs|
    ensures var c0 := CopyToLog(l, d, vals, |bs|);
            && Sound(l, c0) && Sound(l, SetHead(l, c0, bs)) && Pending(l, SetHead(l, c0, bs)) == bs
            && |CommitTrail(l, d, bs, vals)| == CommitLength(|bs|)
            && CommitTrail(l, d, bs, vals)[|bs| + k] == Install(l, SetHead(l, c0, bs), bs, k)
  {
    var c, _ := TrailIs(l, d, bs, vals, |bs| + k);
    InstallTrailAt(l, c, bs, |bs|, k);
  }

  lemma TrailEnds(l: Layout, d: Disk, bs: seq<int>, vals: seq<Block>)
    requires Txn(l, d, bs, vals) && bs != []
    ensures |CommitTrail(l, d, bs, vals)| == CommitLength(|bs|)
    ensures CommitTrail(l, d, bs, vals)[CommitLength(|bs|) - 1] == CommitAt(l, d, bs, vals, CommitLength(|bs|))
  {
    var _, _ := TrailIs(l, d, bs, vals, CommitLength(|bs|) - 1);
    CommitAtEnd(l, d, bs, vals);
  }

  lemma CommitTrailAt(l: Layout, d: Disk, bs: seq<int>, vals: seq<Block>, i: nat)
    requires Txn(l, d, bs, vals)
    ensures |CommitTrail(l, d, bs, vals)| == CommitLength(|bs|)
    ensures 1 <= i <= CommitLength(|bs|) ==> CommitTrail(l, d, bs, vals)[i-1] == CommitAt(l, d, bs, vals, i)
  {
    if bs != [] {
      TrailEnds(l, d, bs, vals);
      if 1 <= i <= |bs| {
        TrailCopies(l, d, bs, vals, i);
      } else if |bs| < i <= 2 * |bs| + 1 {
        TrailInstalls(l, d, bs, vals, i);
      }
    }
  }

  lemma RecoverTrailAt(l: Layout, d: Disk, i: nat)
    requires Sound(l, d)
    ensures |RecoverTrail(l, d)| == RecoverLength(l, d)
    ensures 1 <= i <= RecoverLength(l, d) ==> RecoverTrail(l, d)[i-1] == RecoverAt(l, d, i)
  {
    InstallTrailAt(l, d, Pending(l, d), |Pending(l, d)|, i);
  }
}
