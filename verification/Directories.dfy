/** The operations on directory entries and links.  Each method is one step that a
    system call takes under the locks it holds; other calls may run between steps. */
module Directories {
  import opened LinkCounts
  import opened Numbers

  datatype Entered = Linked | Exists | Full      // 0, -1, panic

  datatype CreateResult =
    | Made(i: int)          // a new inode
    | Existing(i: int)      // the file that was there
    | Taken(i: int)         // returns 0: the name is in use
    | OutOfInodes           // panic
    | DirectoryFull         // panic

  datatype UnlinkResult =
    | Done(i: int)
    | NotEmpty(i: int)      // returns -1
    | Bad                   // returns -1

  /** A new directory's ".." is a link to its parent. */
  function MoreLinks(nlink: int, kind: Kind): int { if kind == Dir then nlink + 1 else nlink }

  class Directories {
    const root: int
    const ninodes: int
    /** Entries that fit in a file of the largest size. */
    const maxEntries: int
    var inodes: map<int, Inode>
    /** ref of the in-memory inodes. */
    var refs: multiset<int>
    ghost var pending: multiset<int>

    ghost function S(): State
      reads this
    {
      State(root, inodes, pending)
    }

    /** No entry of `dp` is free and none can be added. */
    predicate IsFull(dp: int)
      requires dp in inodes
      reads this`inodes
    {
      |inodes[dp].entries| == maxEntries && forall k :: 0 <= k < maxEntries ==> inodes[dp].entries[k].inum != 0
    }

    ghost predicate Valid()
      reads this
    {
      Inv(S()) && maxEntries >= 2 && forall i :: i in inodes <==> 1 <= i < ninodes
    }

    /** Mounts a consistent image; nothing is open. */
    constructor (image: State, ninodes: int, maxEntries: int)
      requires Inv(image) && image.pending == multiset{} && maxEntries >= 2
      requires forall i :: i in image.inodes <==> 1 <= i < ninodes
      ensures Valid() && S() == image && refs == multiset{}
      ensures this.ninodes == ninodes && this.maxEntries == maxEntries
    {
      this.ninodes, this.maxEntries := ninodes, maxEntries;
      root, inodes, refs, pending := image.root, image.inodes, multiset{}, image.pending;
    }

    /** The index of the entry with a name, or -1. */
    method Dirlookup(dp: int, name: string) returns (k: int)
      requires dp in inodes
      ensures -1 <= k < |inodes[dp].entries|
      ensures k >= 0 ==> inodes[dp].entries[k].inum != 0 && inodes[dp].entries[k].name == name
      ensures forall j :: 0 <= j < (if k >= 0 then k else |inodes[dp].entries|) && inodes[dp].entries[j].inum != 0 ==>
                inodes[dp].entries[j].name != name
    {
      var es := inodes[dp].entries;
      k := 0;
      while k < |es|
        invariant 0 <= k <= |es|
        invariant forall j :: 0 <= j < k && es[j].inum != 0 ==> es[j].name != name
      {
        if es[k].inum != 0 && es[k].name == name { return; }
        k := k + 1;
      }
      k := -1;
    }

    method Isdirempty(dp: int) returns (empty: bool)
      requires IsDir(S(), dp)
      ensures empty <==> Empty(S(), dp)
    {
      var es := inodes[dp].entries;
      var k := 2;
      while k < |es|
        invariant 2 <= k
        invariant forall j :: 2 <= j < k && j < |es| ==> es[j].inum == 0
      {
        if es[k].inum != 0 { return false; }
        k := k + 1;
      }
      return true;
    }

    /** Enters a name in the first free slot. */
    method Dirlink(dp: int, name: string, inum: int) returns (r: Entered, ghost k: int)
      requires IsDir(S(), dp) && |inodes[dp].entries| <= maxEntries
      modifies this`inodes
      ensures !r.Linked? ==> inodes == old(inodes)
      ensures r.Exists? <==> !CanEnter(old(S()), dp, |old(inodes)[dp].entries|, name)
      ensures r.Linked? ==> CanEnter(old(S()), dp, k, name)
      ensures r.Linked? ==> forall j :: 0 <= j < k ==> old(inodes)[dp].entries[j].inum != 0
      ensures r.Linked? ==>
        inodes == old(inodes)[dp := old(inodes)[dp].(entries := Put(old(inodes)[dp].entries, k, Dirent(name, inum)))]
      ensures r.Full? ==> IsFull(dp)
    {
      var found := Dirlookup(dp, name);
      if found >= 0 {
        ghost var es := inodes[dp].entries;
        assert es[found].name == name;
        return Exists, 0;
      }
      var es := inodes[dp].entries;
      var off := 0;
      while off < |es|
        invariant 0 <= off <= |es|
        invariant forall j :: 0 <= j < off ==> es[j].inum != 0
      {
        if es[off].inum == 0 { break; }
        off := off + 1;
      }
      k := off;
      if off >= maxEntries { return Full, k; }
      inodes := inodes[dp := inodes[dp].(entries := Put(es, off, Dirent(name, inum)))];
      return Linked, k;
    }

    /** The first free inode, or 0. */
    method FreeInode() returns (i: int)
      requires forall i :: i in inodes <==> 1 <= i < ninodes
      ensures i != 0 ==> i in inodes && inodes[i].kind == Unused
      ensures i == 0 ==> forall j :: j in inodes ==> inodes[j].kind != Unused
    {
      i := 1;
      while i < ninodes
        invariant 1 <= i
        invariant forall j :: 1 <= j < i && j < ninodes ==> inodes[j].kind != Unused
      {
        if inodes[i].kind == Unused { return; }
        i := i + 1;
      }
      return 0;
    }

    /** Fills in a new inode, and a new directory's first entries. */
    method Make(dp: int, i: int, kind: Kind)
      requires IsDir(S(), dp) && i != dp && i != 0 && maxEntries >= 2
      modifies this`inodes
      ensures inodes == old(inodes)[i := Fresh(kind, i, dp)]
                                   [dp := old(inodes)[dp].(nlink := MoreLinks(old(inodes)[dp].nlink, kind))]
    {
      inodes := inodes[i := Inode(kind, 1, [])];
      if kind == Dir {
        inodes := inodes[dp := inodes[dp].(nlink := inodes[dp].nlink + 1)];
        var r1, k1 := Dirlink(i, ".", i);
        var r2, k2 := Dirlink(i, "..", dp);
        assert r1.Linked? && r2.Linked?;
        assert inodes[i].entries == [Dirent(".", i), Dirent("..", dp)];
      }
    }

    method Create(dp: int, name: string, kind: Kind) returns (r: CreateResult, ghost k: int)
      requires Valid() && IsDir(S(), dp) && kind != Unused && |inodes[dp].entries| <= maxEntries
      modifies this`inodes, this`refs
      ensures r.Made? ==>
        && CanCreate(old(S()), dp, k, name, r.i, kind) && S() == Created(old(S()), dp, k, name, r.i, kind)
        && refs == old(refs) + multiset{r.i}
        && (Valid() <==> Live(old(S()), dp))
      ensures r.Existing? || r.Taken? ==>
        && inodes == old(inodes) && refs == old(refs) + multiset{r.i}
        && (exists j :: 0 <= j < |inodes[dp].entries| && inodes[dp].entries[j] == Dirent(name, r.i))
        && (r.Existing? <==> kind == File && r.i in inodes && inodes[r.i].kind == File)
      ensures r.OutOfInodes? ==> inodes == old(inodes) && forall j :: j in inodes ==> inodes[j].kind != Unused
      ensures r.DirectoryFull? ==> old(IsFull(dp))
    {
      var j := Dirlookup(dp, name);
      if j >= 0 {
        var i := inodes[dp].entries[j].inum;
        assert inodes[dp].entries[j] == Dirent(name, i);
        refs := refs + multiset{i};
        if kind == File && i in inodes && inodes[i].kind == File { return Existing(i), 0; }
        return Taken(i), 0;
      }
      var i := FreeInode();
      if i == 0 { return OutOfInodes, 0; }
      ghost var s := S();
      assert DirOk(s, dp);
      Make(dp, i, kind);
      refs := refs + multiset{i};
      assert CanEnter(s, dp, |s.inodes[dp].entries|, name);
      var r0, k0 := Dirlink(dp, name, i);
      assert !r0.Exists?;
      if r0.Full? { return DirectoryFull, 0; }
      k := k0;
      assert inodes == Created(s, dp, k, name, i, kind).inodes;
      CreateKeepsIff(s, dp, k, name, i, kind);
      return Made(i), k;
    }

    method Unlink(dp: int, name: string) returns (r: UnlinkResult, ghost k: int)
      requires Valid() && IsDir(S(), dp)
      modifies this`inodes, this`refs
      ensures Valid()
      ensures r.Done? ==>
        && CanUnlink(old(S()), dp, k, r.i) && r.i in old(inodes)
        && !IsDot(name) && old(inodes)[dp].entries[k].name == name
        && S() == Unlinked(old(S()), dp, k) && refs == old(refs) + multiset{r.i}
      ensures !r.Done? ==> inodes == old(inodes)
      ensures r.NotEmpty? ==>
        && Names(S(), dp, k, r.i) && inodes[dp].entries[k].name == name
        && refs == old(refs) + multiset{r.i} && IsDir(S(), r.i) && !Empty(S(), r.i)
      ensures r.Bad? ==>
        && refs == old(refs)
        && (IsDot(name) || forall j :: 0 <= j < |inodes[dp].entries| && inodes[dp].entries[j].inum != 0 ==>
            inodes[dp].entries[j].name != name)
    {
      if name == "." || name == ".." { return Bad, 0; }
      var off := Dirlookup(dp, name);
      if off < 0 { return Bad, 0; }
      ghost var s := S();
      var i := inodes[dp].entries[off].inum;
      assert DirOk(s, dp) && off >= 2;
      assert Names(s, dp, off, i);
      NamedInode(s, dp, off, i);
      refs := refs + multiset{i};
      if inodes[i].kind == Dir {
        var empty := Isdirempty(i);
        if !empty { return NotEmpty(i), off; }
      }
      UnlinkReady(s, dp, off, i);
      assert inodes[i].nlink >= 1;
      UnlinkKeeps(s, dp, off, i);
      Clear(dp, off, i);
      return Done(i), off;
    }

    /** Clears an entry and takes a link from the inode it named. */
    method Clear(dp: int, off: int, i: int)
      requires IsDir(S(), dp) && i in inodes && i != dp && 0 <= off < |inodes[dp].entries|
      requires inodes[dp].entries[off].inum == i
      modifies this`inodes
      ensures inodes == Unlinked(old(S()), dp, off).inodes
    {
      inodes := inodes[dp := inodes[dp].(entries := inodes[dp].entries[off := Dirent("", 0)])];
      if inodes[i].kind == Dir {
        inodes := inodes[dp := inodes[dp].(nlink := inodes[dp].nlink - 1)];
      }
      inodes := inodes[i := inodes[i].(nlink := inodes[i].nlink - 1)];
    }

    /** link up to where it lets go of the inode. */
    method LinkBegin(i: int) returns (ok: bool)
      requires Valid() && i in inodes && inodes[i].kind != Unused
      modifies this`inodes, this`pending
      ensures Valid() && (ok <==> !IsDir(old(S()), i))
      ensures S() == if ok then LinkBegun(old(S()), i) else old(S())
    {
      if inodes[i].kind == Dir { return false; }
      LinkBegunKeeps(S(), i);
      inodes := inodes[i := inodes[i].(nlink := inodes[i].nlink + 1)];
      pending := pending + multiset{i};
      return true;
    }

    method LinkEnd(dp: int, name: string, i: int) returns (r: Entered, ghost k: int)
      requires Valid() && IsDir(S(), dp) && i in pending && |inodes[dp].entries| <= maxEntries
      modifies this`inodes, this`pending
      ensures r.Linked? ==>
        && CanEnter(old(S()), dp, k, name) && S() == LinkDone(old(S()), dp, k, name, i)
        && (Valid() <==> Live(old(S()), dp))
      ensures !r.Linked? ==> S() == old(S())
      ensures r.Exists? <==> !CanEnter(old(S()), dp, |old(inodes)[dp].entries|, name)
      ensures r.Full? ==> IsFull(dp)
    {
      ghost var s := S();
      r, k := Dirlink(dp, name, i);
      if r.Linked? {
        pending := pending - multiset{i};
        LinkDoneIff(s, dp, k, name, i);
      }
    }

    method LinkUndo(i: int)
      requires Valid() && i in pending
      modifies this`inodes, this`pending
      ensures Valid() && i in old(inodes) && S() == LinkUndone(old(S()), i)
    {
      LinkUndoneKeeps(S(), i);
      inodes := inodes[i := inodes[i].(nlink := inodes[i].nlink - 1)];
      pending := pending - multiset{i};
    }

    /** iput: the last reference to an inode without links frees it.  `valid` tells
        whether the inode has been read. */
    method Iput(i: int, valid: bool)
      requires Valid() && i in inodes && i in refs && (valid ==> inodes[i].kind != Unused)
      modifies this`inodes, this`refs
      ensures Valid() && refs == old(refs) - multiset{i}
      ensures inodes != old(inodes) ==>
        && Links(old(S()), i) == {} && pending[i] == 0 && old(refs)[i] == 1
        && S() == Released(old(S()), i)
      ensures valid && old(inodes)[i].nlink == 0 && old(refs)[i] == 1 ==> inodes[i].kind == Unused
    {
      if valid && inodes[i].nlink == 0 && refs[i] == 1 {
        ReleaseKeeps(S(), i);
        inodes := inodes[i := Inode(Unused, 0, [])];
      }
      refs := refs - multiset{i};
    }
  }

  /** What an entry names exists. */
  lemma NamedInode(s: State, d: int, k: int, c: int)
    requires Inv(s) && Names(s, d, k, c) && c != 0
    ensures c in s.inodes && Live(s, d)
  {
    assert DirOk(s, d) && (!Live(s, d) ==> Empty(s, d));
    assert EntryOk(s, d, k);
  }

  const RootEntries := [Dirent(".", 1), Dirent("..", 1)]

  /** What mkfs makes: a root directory and free inodes. */
  function NewFileSystem(ninodes: nat): State {
    var inodes := map i | i in Upto(ninodes) && i > 0 ::
                    if i == 1 then Inode(Dir, 1, RootEntries) else Inode(Unused, 0, []);
    State(1, inodes, multiset{})
  }

  /** Inode `i` is a directory with only its two dot entries. */
  predicate Bare(s: State, i: int, nlink: int) {
    && IsDir(s, i) && s.inodes[i].nlink == nlink && |s.inodes[i].entries| == 2
    && s.inodes[i].entries[0].name == "." && s.inodes[i].entries[1].name == ".."
  }

  method Format(ninodes: nat, maxEntries: int) returns (fs: Directories)
    requires ninodes >= 4 && maxEntries >= 3
    ensures fresh(fs) && fs.Valid() && fs.maxEntries == maxEntries && fs.pending == multiset{} && fs.root == 1
    ensures IsDir(fs.S(), 1) && fs.inodes[1].entries == RootEntries
    ensures 2 in fs.inodes && fs.inodes[2].kind == Unused && 3 in fs.inodes && fs.inodes[3].kind == Unused
  {
    var image := NewFileSystem(ninodes);
    InitOk(image);
    fs := new Directories(image, ninodes, maxEntries);
  }

  /** In a new file system, directory "d" is the only one. */
  method MakeFirst(ninodes: nat, maxEntries: int) returns (fs: Directories, i: int)
    requires ninodes >= 4 && maxEntries >= 3
    ensures fresh(fs) && fs.Valid() && fs.maxEntries == maxEntries && fs.pending == multiset{} && fs.root == 1 && i != 1
    ensures Bare(fs.S(), i, 1) && IsDir(fs.S(), 1) && fs.inodes[1].entries == RootEntries + [Dirent("d", i)]
    ensures exists j :: j in fs.inodes && fs.inodes[j].kind == Unused
  {
    fs := Format(ninodes, maxEntries);
    ghost var s := fs.S();
    assert s.inodes[1].entries == RootEntries && 2 in s.inodes && s.inodes[2].kind == Unused;
    assert RootEntries[0].name[0] == RootEntries[1].name[0] == '.';
    var made, k := fs.Create(1, "d", Dir);
    assert made.Made? && k == 2;
    i := made.i;
    assert 2 in fs.inodes && 3 in fs.inodes && (fs.inodes[2].kind == Unused || fs.inodes[3].kind == Unused);
  }

  /** The directory is removed; somebody may still be in it. */
  method MakeAndRemove(ninodes: nat, maxEntries: int) returns (fs: Directories, i: int)
    requires ninodes >= 4 && maxEntries >= 3
    ensures fresh(fs) && fs.Valid() && fs.maxEntries == maxEntries && Bare(fs.S(), i, 0)
    ensures fs.pending == multiset{} && i != 1 && Live(fs.S(), 1)
    ensures fs.inodes[1].entries == RootEntries + [Dirent("", 0)]
    ensures exists j :: j in fs.inodes && fs.inodes[j].kind == Unused
  {
    fs, i := MakeFirst(ninodes, maxEntries);
    ghost var s := fs.S();
    assert s.inodes[1].entries[2] == Dirent("d", i) && "d"[0] != '.' && "."[0] == ".."[0] == '.';
    var gone, k := fs.Unlink(1, "d");
    assert gone.Done? && k == 2;
    UnlinkReady(s, 1, k, i);
    assert Live(fs.S(), fs.root);
    ghost var j :| j in s.inodes && s.inodes[j].kind == Unused;
    assert fs.inodes[j].kind == Unused;
  }

  /** On a new file system: a directory is made, removed while somebody is in it, and a
      file is made in it.  The new file has a link count and no link that counts. */
  method EntryInRemovedDirectory(ninodes: nat, maxEntries: int) returns (fs: Directories, f: int)
    requires ninodes >= 4 && maxEntries >= 3
    ensures fresh(fs) && !fs.Valid() && f in fs.inodes
    ensures fs.inodes[f].nlink == 1 && Links(fs.S(), f) == {}
  {
    var i;
    fs, i := MakeAndRemove(ninodes, maxEntries);
    ghost var s := fs.S();
    assert "f"[0] != '.' && "."[0] == ".."[0] == '.';
    var made, k := fs.Create(i, "f", File);
    assert made.Made?;
    f := made.i;
    DeadCreate(s, i, k, "f", f);
  }

  /** The same with a link to an older file: its link count is one too many. */
  method LinkInRemovedDirectory(ninodes: nat, maxEntries: int) returns (fs: Directories, f: int)
    requires ninodes >= 4 && maxEntries >= 3
    ensures fresh(fs) && !fs.Valid() && f in fs.inodes && f !in fs.pending
    ensures fs.inodes[f].nlink == 2 && |Links(fs.S(), f)| == 1
  {
    var i, done;
    fs, i, f := RemoveAndBegin(ninodes, maxEntries);
    ghost var s := fs.S();
    assert "g"[0] != '.' && "."[0] == ".."[0] == '.';
    ghost var k;
    done, k := fs.LinkEnd(i, "g", f);
    assert done.Linked?;
    assert CountOk(s, f);
    LinkDoneLinks(s, i, k, "g", f, f);
  }

  /** A directory has been removed, and a link to a file is in progress. */
  method RemoveAndBegin(ninodes: nat, maxEntries: int) returns (fs: Directories, i: int, f: int)
    requires ninodes >= 4 && maxEntries >= 3
    ensures fresh(fs) && fs.Valid() && fs.maxEntries == maxEntries && Bare(fs.S(), i, 0)
    ensures f in fs.inodes && fs.inodes[f].kind == File && fs.inodes[f].nlink == 2 && fs.pending == multiset{f}
  {
    fs, i, f := FileBeside(ninodes, maxEntries);
    var ok := fs.LinkBegin(f);
    assert ok;
  }

  /** A directory has been removed, and there is a file. */
  method FileBeside(ninodes: nat, maxEntries: int) returns (fs: Directories, i: int, f: int)
    requires ninodes >= 4 && maxEntries >= 3
    ensures fresh(fs) && fs.Valid() && fs.maxEntries == maxEntries && Bare(fs.S(), i, 0)
    ensures f in fs.inodes && fs.inodes[f].kind == File && fs.inodes[f].nlink == 1 && fs.pending == multiset{}
  {
    fs, i := MakeAndRemove(ninodes, maxEntries);
    ghost var s := fs.S();
    assert "f"[0] != '.' && "."[0] == ".."[0] == '.' && s.inodes[1].entries[2].inum == 0;
    var made, k := fs.Create(1, "f", File);
    assert made.Made?;
    f := made.i;
  }

  /** A file entered in a directory without links is named by no entry that counts. */
  lemma DeadCreate(s: State, dp: int, k: int, name: string, i: int)
    requires Inv(s) && CanCreate(s, dp, k, name, i, File) && !Live(s, dp)
    ensures var t := Created(s, dp, k, name, i, File); i in t.inodes && t.inodes[i].nlink == 1 && Links(t, i) == {}
  {
    var t := Created(s, dp, k, name, i, File);
    assert CountOk(s, i) && i != dp;
    forall d, j ensures !Link(t, i, d, j) { assert (d, j) in Links(s, i) <==> Link(s, i, d, j); }
  }
}
