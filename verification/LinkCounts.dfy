/** Inodes, directory entries and link counts. */
module LinkCounts {
  import opened Numbers

  datatype Kind = Unused | File | Dir | Device

  /** A directory entry; inum 0 marks a free one. */
  datatype Dirent = Dirent(name: string, inum: int)

  /** `entries` is what a directory contains. */
  datatype Inode = Inode(kind: Kind, nlink: int, entries: seq<Dirent>)

  /** `pending` counts, for each inode, the link calls that have raised its nlink and
      not yet added their entry. */
  datatype State = State(root: int, inodes: map<int, Inode>, pending: multiset<int>)

  predicate IsDir(s: State, d: int) { d in s.inodes && s.inodes[d].kind == Dir }
  predicate Live(s: State, d: int) { IsDir(s, d) && s.inodes[d].nlink > 0 }

  /** Entry `k` of `d` is a link to inode `i`: `d` has links itself, and the entry is
      not ".". */
  predicate Link(s: State, i: int, d: int, k: int) {
    && Live(s, d) && 0 <= k < |s.inodes[d].entries|
    && s.inodes[d].entries[k].inum == i && s.inodes[d].entries[k].name != "."
  }

  function Links(s: State, i: int): set<(int, int)> {
    set d, k | d in s.inodes && 0 <= k < |s.inodes[d].entries| && Link(s, i, d, k) :: (d, k)
  }

  /** An allocated inode's nlink is the number of entries that name it, plus the links
      in progress; nothing names a free inode. */
  ghost predicate CountOk(s: State, i: int)
    requires i in s.inodes
  {
    if s.inodes[i].kind == Unused then Links(s, i) == {} && s.pending[i] == 0
    else s.inodes[i].nlink == |Links(s, i)| + s.pending[i]
  }

  predicate IsDot(name: string) { name == "." || name == ".." }

  /** "." and ".." come first, and names are not repeated. */
  ghost predicate DirOk(s: State, d: int)
    requires IsDir(s, d)
  {
    var es := s.inodes[d].entries;
    && |es| >= 2 && es[0] == Dirent(".", d) && es[1].name == ".." && es[1].inum != 0
    && (forall k :: 2 <= k < |es| && es[k].inum != 0 ==> !IsDot(es[k].name))
    && (forall j, k :: 0 <= j < k < |es| && es[j].inum != 0 && es[k].inum != 0 ==> es[j].name != es[k].name)
  }

  function Parent(s: State, d: int): int
    requires d in s.inodes && |s.inodes[d].entries| >= 2
  {
    s.inodes[d].entries[1].inum
  }

  ghost predicate Empty(s: State, d: int)
    requires IsDir(s, d)
  {
    forall k :: 2 <= k < |s.inodes[d].entries| ==> s.inodes[d].entries[k].inum == 0
  }

  /** Entry `k` of `d` names inode `c`. */
  predicate Names(s: State, d: int, k: int, c: int) {
    IsDir(s, d) && 2 <= k < |s.inodes[d].entries| && s.inodes[d].entries[k].inum == c
  }

  /** Directory `d` with links hangs off its parent, under one name. */
  ghost predicate HangsOn(s: State, d: int)
    requires IsDir(s, d)
  {
    |s.inodes[d].entries| >= 2 &&
    if d == s.root then Parent(s, d) == d
    else Live(s, Parent(s, d)) && exists k :: Names(s, Parent(s, d), k, d)
  }

  /** An entry that names a directory is the one it hangs on. */
  ghost predicate NamedOnce(s: State, d: int, k: int, c: int)
    requires Names(s, d, k, c) && IsDir(s, c)
  {
    && |s.inodes[c].entries| >= 2 && c != s.root && Live(s, c) && Parent(s, c) == d
    && forall j :: Names(s, d, j, c) ==> j == k
  }

  ghost predicate Dirs(s: State) { forall d {:trigger DirOk(s, d)} :: IsDir(s, d) ==> DirOk(s, d) }

  ghost predicate Counts(s: State) {
    && (forall i {:trigger CountOk(s, i)} :: i in s.inodes ==> CountOk(s, i))
    && (forall i :: i in s.pending ==> i in s.inodes && s.inodes[i].kind != Dir)
    && (forall i :: i in s.inodes && s.inodes[i].kind != Unused ==> s.inodes[i].nlink >= 0)
  }

  /** An entry of a directory with links names an inode. */
  ghost predicate EntryOk(s: State, d: int, k: int)
    requires IsDir(s, d) && 0 <= k < |s.inodes[d].entries|
  {
    s.inodes[d].entries[k].inum == 0 || s.inodes[d].entries[k].inum in s.inodes
  }

  /** Directories with links form a tree; those without are empty. */
  ghost predicate Tree(s: State) {
    && 0 !in s.inodes && Live(s, s.root) && Dirs(s)
    && (forall d {:trigger HangsOn(s, d)} :: Live(s, d) ==> HangsOn(s, d))
    && (forall d {:trigger Empty(s, d)} :: IsDir(s, d) && !Live(s, d) ==> Empty(s, d))
    && (forall d, k, c {:trigger NamedOnce(s, d, k, c)} :: Names(s, d, k, c) && IsDir(s, c) ==> NamedOnce(s, d, k, c))
    && (forall d, k {:trigger EntryOk(s, d, k)} :: Live(s, d) && 0 <= k < |s.inodes[d].entries| ==> EntryOk(s, d, k))
  }

  ghost predicate Inv(s: State) { Counts(s) && Tree(s) }

  /** A freshly made file system. */
  lemma InitOk(s: State)
    requires s.root != 0 && 0 !in s.inodes && s.pending == multiset{}
    requires s.root in s.inodes && s.inodes[s.root] == Inode(Dir, 1, [Dirent(".", s.root), Dirent("..", s.root)])
    requires forall i :: i in s.inodes && i != s.root ==> s.inodes[i].kind == Unused
    ensures Inv(s)
  {
    assert DirOk(s, s.root) && HangsOn(s, s.root);
    forall d | IsDir(s, d) ensures d == s.root { }
    assert Links(s, s.root) == {(s.root, 1)};
    forall i | i in s.inodes && i != s.root ensures Links(s, i) == {} { }
  }

  // ----- entries come and go -----

  function Put(es: seq<Dirent>, k: int, e: Dirent): seq<Dirent>
    requires 0 <= k <= |es|
  {
    if k < |es| then es[k := e] else es + [e]
  }

  /** The new inode of create. */
  function Fresh(kind: Kind, i: int, dp: int): Inode {
    Inode(kind, 1, if kind == Dir then [Dirent(".", i), Dirent("..", dp)] else [])
  }

  /** create: inode `i` is made and entered as `name` in slot `k` of `dp`. */
  function Created(s: State, dp: int, k: int, name: string, i: int, kind: Kind): State
    requires dp in s.inodes && 0 <= k <= |s.inodes[dp].entries|
  {
    var p := s.inodes[dp];
    var nlink := if kind == Dir then p.nlink + 1 else p.nlink;
    s.(inodes := s.inodes[i := Fresh(kind, i, dp)]
                         [dp := Inode(p.kind, nlink, Put(p.entries, k, Dirent(name, i)))])
  }

  /** Slot `k` of `dp` is free and `name` is not in use. */
  ghost predicate CanEnter(s: State, dp: int, k: int, name: string) {
    && IsDir(s, dp) && 0 <= k <= |s.inodes[dp].entries|
    && (k < |s.inodes[dp].entries| ==> s.inodes[dp].entries[k].inum == 0)
    && forall j :: 0 <= j < |s.inodes[dp].entries| && s.inodes[dp].entries[j].inum != 0 ==>
        s.inodes[dp].entries[j].name != name
  }

  ghost predicate CanCreate(s: State, dp: int, k: int, name: string, i: int, kind: Kind) {
    CanEnter(s, dp, k, name) && i in s.inodes && s.inodes[i].kind == Unused && kind != Unused
  }

  lemma CreatedLinks(s: State, dp: int, k: int, name: string, i: int, kind: Kind, x: int)
    requires Inv(s) && CanCreate(s, dp, k, name, i, kind) && Live(s, dp) && x != 0
    ensures var t := Created(s, dp, k, name, i, kind);
            Links(t, x) == Links(s, x) + (if x == i then {(dp, k)} else {})
                                       + (if kind == Dir && x == dp then {(i, 1)} else {})
    ensures (dp, k) !in Links(s, x) && (i, 1) !in Links(s, x)
  {
    var t := Created(s, dp, k, name, i, kind);
    assert DirOk(s, dp) && k >= 2;
    assert name != ".";
    forall d, j
      ensures Link(t, x, d, j) <==>
        || Link(s, x, d, j) || (x == i && d == dp && j == k) || (kind == Dir && x == dp && d == i && j == 1)
    {
    }
    LinksDiffer(s, t, x, {}, (if x == i then {(dp, k)} else {}) + (if kind == Dir && x == dp then {(i, 1)} else {}));
  }

  lemma CreateKeeps(s: State, dp: int, k: int, name: string, i: int, kind: Kind)
    requires Inv(s) && CanCreate(s, dp, k, name, i, kind) && Live(s, dp)
    ensures Inv(Created(s, dp, k, name, i, kind))
  {
    var t := Created(s, dp, k, name, i, kind);
    assert CountOk(s, i);
    forall x | x in t.inodes ensures CountOk(t, x) { CreateCount(s, dp, k, name, i, kind, x); }
    assert Counts(t);
    CreateTree(s, dp, k, name, i, kind);
  }

  lemma CreateCount(s: State, dp: int, k: int, name: string, i: int, kind: Kind, x: int)
    requires Inv(s) && CanCreate(s, dp, k, name, i, kind) && Live(s, dp) && x in s.inodes
    ensures CountOk(Created(s, dp, k, name, i, kind), x)
  {
    assert CountOk(s, x);
    CreatedLinks(s, dp, k, name, i, kind, x);
  }

  lemma CreateTree(s: State, dp: int, k: int, name: string, i: int, kind: Kind)
    requires Inv(s) && CanCreate(s, dp, k, name, i, kind) && Live(s, dp)
    ensures Tree(Created(s, dp, k, name, i, kind))
  {
    var t := Created(s, dp, k, name, i, kind);
    assert DirOk(s, dp) && k >= 2 && !IsDot(name);
    forall d | IsDir(t, d) ensures DirOk(t, d) { CreateDirOk(s, dp, k, name, i, kind, d); }
    forall d | Live(t, d) ensures HangsOn(t, d) { CreateHangs(s, dp, k, name, i, kind, d); }
    forall d | IsDir(t, d) && !Live(t, d) ensures Empty(t, d) { assert Empty(s, d); }
    forall d, j, c | Names(t, d, j, c) && IsDir(t, c) ensures NamedOnce(t, d, j, c) {
      assert DirOk(t, c);
      CreateNamed(s, dp, k, name, i, kind, d, j, c);
    }
    forall d, j | Live(t, d) && 0 <= j < |t.inodes[d].entries| ensures EntryOk(t, d, j) {
      if d != i && j < |s.inodes[d].entries| { assert EntryOk(s, d, j); }
    }
  }

  lemma CreateDirOk(s: State, dp: int, k: int, name: string, i: int, kind: Kind, d: int)
    requires Inv(s) && CanCreate(s, dp, k, name, i, kind) && !IsDot(name)
    requires IsDir(Created(s, dp, k, name, i, kind), d)
    ensures DirOk(Created(s, dp, k, name, i, kind), d)
  {
    if d != i { assert DirOk(s, d); }
  }

  lemma CreateHangs(s: State, dp: int, k: int, name: string, i: int, kind: Kind, d: int)
    requires Inv(s) && CanCreate(s, dp, k, name, i, kind) && Live(s, dp) && k >= 2
    requires Live(Created(s, dp, k, name, i, kind), d)
    ensures HangsOn(Created(s, dp, k, name, i, kind), d)
  {
    var t := Created(s, dp, k, name, i, kind);
    if d == i {
      assert Names(t, dp, k, i);
    } else {
      assert DirOk(s, d) && HangsOn(s, d);
      if d != s.root {
        var j :| Names(s, Parent(s, d), j, d);
        assert Names(t, Parent(t, d), j, d);
      }
    }
  }

  lemma CreateNamed(s: State, dp: int, k: int, name: string, i: int, kind: Kind, d: int, j: int, c: int)
    requires Inv(s) && CanCreate(s, dp, k, name, i, kind) && Live(s, dp)
    requires var t := Created(s, dp, k, name, i, kind); Names(t, d, j, c) && IsDir(t, c) && DirOk(t, c) && k >= 2
    ensures NamedOnce(Created(s, dp, k, name, i, kind), d, j, c)
  {
    var t := Created(s, dp, k, name, i, kind);
    if c == i {
      forall e, m | Names(t, e, m, i) ensures e == dp && m == k {
        if Names(s, e, m, i) { Unnamed(s, e, m, i); }
      }
    } else {
      assert d != i && Names(s, d, j, c) && IsDir(s, c);
      assert NamedOnce(s, d, j, c);
      forall m | Names(t, d, m, c) ensures m == j { assert Names(s, d, m, c); }
    }
  }

  /** Nothing names a free inode. */
  lemma Unnamed(s: State, d: int, k: int, i: int)
    requires Inv(s) && Names(s, d, k, i) && i != 0
    ensures !(i in s.inodes && s.inodes[i].kind == Unused)
  {
    assert DirOk(s, d);
    assert i in s.inodes ==> CountOk(s, i);
    assert Live(s, d) ==> (d, k) in Links(s, i);
    assert !Live(s, d) ==> Empty(s, d);
  }

  lemma NamedLive(s: State, d: int, k: int, c: int)
    requires Inv(s) && Names(s, d, k, c) && IsDir(s, c)
    ensures Live(s, c)
  {
    assert NamedOnce(s, d, k, c);
  }

  /** An entry in a directory without links is not counted: the invariant is kept
      exactly if `dp` has links. */
  lemma CreateKeepsIff(s: State, dp: int, k: int, name: string, i: int, kind: Kind)
    requires Inv(s) && CanCreate(s, dp, k, name, i, kind)
    ensures Inv(Created(s, dp, k, name, i, kind)) <==> Live(s, dp)
  {
    var t := Created(s, dp, k, name, i, kind);
    assert CountOk(s, i) && i != dp && DirOk(s, dp);
    if Live(s, dp) {
      CreateKeeps(s, dp, k, name, i, kind);
    } else if kind == Dir {
      forall e, m ensures !Names(t, e, m, dp) {
        if Names(s, e, m, dp) { NamedLive(s, e, m, dp); }
      }
      assert !HangsOn(t, dp);
    } else {
      forall d, j ensures !Link(t, i, d, j) { assert (d, j) in Links(s, i) <==> Link(s, i, d, j); }
      assert Links(t, i) == {};
      assert !CountOk(t, i);
    }
  }

  // ----- unlink -----

  /** unlink: entry `k` of `dp` is cleared, and the inode it named loses a link. */
  function Unlinked(s: State, dp: int, k: int): State
    requires IsDir(s, dp) && 0 <= k < |s.inodes[dp].entries| && s.inodes[dp].entries[k].inum in s.inodes
  {
    var p, i := s.inodes[dp], s.inodes[dp].entries[k].inum;
    var c := s.inodes[i];
    var nlink := if c.kind == Dir then p.nlink - 1 else p.nlink;
    s.(inodes := s.inodes[dp := Inode(p.kind, nlink, p.entries[k := Dirent("", 0)])]
                         [i := c.(nlink := c.nlink - 1)])
  }

  /** Entry `k` of `dp` names `c`, and if that is a directory it is empty. */
  ghost predicate CanUnlink(s: State, dp: int, k: int, c: int) {
    c != 0 && Names(s, dp, k, c) && (IsDir(s, c) ==> Empty(s, c))
  }

  /** "unlink: nlink < 1" cannot happen, and an empty directory has one link. */
  lemma UnlinkReady(s: State, dp: int, k: int, c: int)
    requires Inv(s) && CanUnlink(s, dp, k, c)
    ensures c in s.inodes && c != dp && Live(s, dp) && s.inodes[c].kind != Unused
    ensures s.inodes[c].nlink >= 1 && (dp, k) in Links(s, c)
    ensures IsDir(s, c) ==> Links(s, c) == {(dp, k)} && s.inodes[c].nlink == 1 && s.pending[c] == 0
  {
    assert DirOk(s, dp);
    assert Live(s, dp) by { assert !Live(s, dp) ==> Empty(s, dp); }
    assert EntryOk(s, dp, k) && CountOk(s, c);
    assert (dp, k) in Links(s, c);
    if IsDir(s, c) {
      assert NamedOnce(s, dp, k, c);
      forall e, j | Link(s, c, e, j) ensures e == dp && j == k {
        assert DirOk(s, e) && HangsOn(s, e);
        if j >= 2 { assert NamedOnce(s, e, j, c); }
      }
      assert Links(s, c) == {(dp, k)};
    }
  }

  lemma UnlinkedLinks(s: State, dp: int, k: int, c: int, x: int)
    requires Inv(s) && CanUnlink(s, dp, k, c) && c in s.inodes && x != 0
    ensures Links(Unlinked(s, dp, k), x) ==
            Links(s, x) - (if x == c then {(dp, k)} else {}) - (if IsDir(s, c) && x == dp then {(c, 1)} else {})
    ensures IsDir(s, c) ==> (c, 1) in Links(s, dp) && s.inodes[dp].nlink >= 2
  {
    var t := Unlinked(s, dp, k);
    UnlinkReady(s, dp, k, c);
    if IsDir(s, c) { UnlinkParent(s, dp, k, c); }
    forall d, j
      ensures Link(t, x, d, j) <==>
        && Link(s, x, d, j) && !(x == c && d == dp && j == k) && !(IsDir(s, c) && x == dp && d == c && j == 1)
    {
      if d == c && IsDir(s, c) { assert DirOk(s, c); }
    }
    LinksDiffer(s, t, x, (if x == c then {(dp, k)} else {}) + (if IsDir(s, c) && x == dp then {(c, 1)} else {}), {});
  }

  lemma LinksDiffer(s: State, t: State, x: int, gone: set<(int, int)>, more: set<(int, int)>)
    requires forall d, j :: Link(t, x, d, j) <==> (Link(s, x, d, j) && (d, j) !in gone) || (d, j) in more
    ensures Links(t, x) == Links(s, x) - gone + more
  {
    forall e | e in Links(t, x) ensures e in Links(s, x) - gone + more { assert Link(t, x, e.0, e.1); }
    forall e | e in Links(s, x) - gone + more ensures e in Links(t, x) { assert Link(t, x, e.0, e.1); }
  }

  /** The parent of an empty directory has a link besides its "..". */
  lemma UnlinkParent(s: State, dp: int, k: int, c: int)
    requires Inv(s) && CanUnlink(s, dp, k, c) && IsDir(s, c)
    ensures Live(s, c) && DirOk(s, c) && Parent(s, c) == dp
    ensures (c, 1) in Links(s, dp) && s.inodes[dp].nlink >= 2
  {
    UnlinkReady(s, dp, k, c);
    assert NamedOnce(s, dp, k, c) && DirOk(s, c) && DirOk(s, dp) && HangsOn(s, dp) && CountOk(s, dp);
    var other := (dp, 1);
    if dp != s.root {
      var j :| Names(s, Parent(s, dp), j, dp);
      assert DirOk(s, Parent(s, dp));
      other := (Parent(s, dp), j);
    }
    assert other in Links(s, dp) && (c, 1) in Links(s, dp) && other != (c, 1);
    assert {other, (c, 1)} <= Links(s, dp);
    Subset({other, (c, 1)}, Links(s, dp));
  }

  lemma UnlinkCount(s: State, dp: int, k: int, c: int, x: int)
    requires Inv(s) && CanUnlink(s, dp, k, c) && c in s.inodes && x in s.inodes
    ensures CountOk(Unlinked(s, dp, k), x)
  {
    assert CountOk(s, x);
    UnlinkReady(s, dp, k, c);
    UnlinkedLinks(s, dp, k, c, x);
  }

  lemma UnlinkKeeps(s: State, dp: int, k: int, c: int)
    requires Inv(s) && CanUnlink(s, dp, k, c) && c in s.inodes
    ensures Inv(Unlinked(s, dp, k))
  {
    var t := Unlinked(s, dp, k);
    UnlinkReady(s, dp, k, c);
    if IsDir(s, c) { UnlinkParent(s, dp, k, c); }
    forall x | x in t.inodes ensures CountOk(t, x) { UnlinkCount(s, dp, k, c, x); }
    assert Counts(t);
    UnlinkTree(s, dp, k, c);
  }

  lemma UnlinkTree(s: State, dp: int, k: int, c: int)
    requires Inv(s) && CanUnlink(s, dp, k, c) && c in s.inodes
    ensures Tree(Unlinked(s, dp, k))
  {
    var t := Unlinked(s, dp, k);
    UnlinkReady(s, dp, k, c);
    if IsDir(s, c) {
      UnlinkParent(s, dp, k, c);
      assert NamedOnce(s, dp, k, c);
    }
    forall d | IsDir(t, d) ensures DirOk(t, d) { assert DirOk(s, d); }
    forall d | Live(t, d) ensures HangsOn(t, d) { UnlinkHangs(s, dp, k, c, d); }
    forall d | IsDir(t, d) && !Live(t, d) ensures Empty(t, d) {
      if d != c { assert Empty(s, d); }
    }
    forall d, j, x | Names(t, d, j, x) && IsDir(t, x) ensures NamedOnce(t, d, j, x) {
      UnlinkNamed(s, dp, k, c, d, j, x);
    }
    forall d, j | Live(t, d) && 0 <= j < |t.inodes[d].entries| ensures EntryOk(t, d, j) { assert EntryOk(s, d, j); }
  }

  lemma UnlinkHangs(s: State, dp: int, k: int, c: int, d: int)
    requires Inv(s) && CanUnlink(s, dp, k, c) && c in s.inodes && Live(Unlinked(s, dp, k), d)
    ensures HangsOn(Unlinked(s, dp, k), d)
  {
    var t := Unlinked(s, dp, k);
    UnlinkReady(s, dp, k, c);
    if IsDir(s, c) { UnlinkParent(s, dp, k, c); }
    assert Live(s, d) && HangsOn(s, d) && DirOk(s, d);
    if d != s.root {
      var j :| Names(s, Parent(s, d), j, d);
      assert Names(t, Parent(t, d), j, d);
    }
  }

  lemma UnlinkNamed(s: State, dp: int, k: int, c: int, d: int, j: int, x: int)
    requires Inv(s) && CanUnlink(s, dp, k, c) && c in s.inodes
    requires Names(Unlinked(s, dp, k), d, j, x) && IsDir(Unlinked(s, dp, k), x)
    ensures NamedOnce(Unlinked(s, dp, k), d, j, x)
  {
    var t := Unlinked(s, dp, k);
    UnlinkReady(s, dp, k, c);
    if IsDir(s, c) {
      UnlinkParent(s, dp, k, c);
      assert NamedOnce(s, dp, k, c);
    }
    assert Names(s, d, j, x) && NamedOnce(s, d, j, x) && DirOk(s, x);
    forall m | Names(t, d, m, x) ensures m == j { assert Names(s, d, m, x); }
  }

  // ----- link -----

  /** The directories with links are the same, and so are their entries. */
  ghost predicate SameDirs(s: State, t: State) {
    && t.root == s.root && t.inodes.Keys == s.inodes.Keys
    && (forall d :: IsDir(t, d) ==> IsDir(s, d) && t.inodes[d] == s.inodes[d])
    && (forall d :: Live(s, d) ==> Live(t, d))
  }

  lemma SameDirsBy(s: State, t: State, i: int)
    requires i in s.inodes && i in t.inodes && t.root == s.root && t.inodes == s.inodes[i := t.inodes[i]]
    requires !Live(s, i) && t.inodes[i].kind != Dir
    ensures SameDirs(s, t)
  {
  }

  lemma SameCount(s: State, t: State, x: int)
    requires Inv(s) && SameDirs(s, t) && x in s.inodes
    requires if t.inodes[x].kind == Unused then s.pending[x] == t.pending[x] &&
        (s.inodes[x].kind == Unused || s.inodes[x].nlink == 0)
             else s.inodes[x].kind != Unused && t.inodes[x].nlink - t.pending[x] == s.inodes[x].nlink - s.pending[x]
    ensures CountOk(t, x)
  {
    assert CountOk(s, x);
    SameLinks(s, t, x);
  }

  lemma SameLinks(s: State, t: State, x: int)
    requires SameDirs(s, t)
    ensures Links(t, x) == Links(s, x)
  {
    forall d, j ensures Link(t, x, d, j) <==> Link(s, x, d, j) { }
  }

  lemma SameTree(s: State, t: State)
    requires Tree(s) && SameDirs(s, t)
    ensures Tree(t)
  {
    forall d | IsDir(t, d) ensures DirOk(t, d) { assert DirOk(s, d); }
    forall d | Live(t, d) ensures HangsOn(t, d) {
      assert HangsOn(s, d);
      if d != s.root {
        var j :| Names(s, Parent(s, d), j, d);
        assert Names(t, Parent(t, d), j, d);
      }
    }
    forall d | IsDir(t, d) && !Live(t, d) ensures Empty(t, d) { assert Empty(s, d); }
    forall d, j, x | Names(t, d, j, x) && IsDir(t, x) ensures NamedOnce(t, d, j, x) {
      assert Names(s, d, j, x) && NamedOnce(s, d, j, x);
      forall m | Names(t, d, m, x) ensures m == j { assert Names(s, d, m, x); }
    }
    forall d, j | Live(t, d) && 0 <= j < |t.inodes[d].entries| ensures EntryOk(t, d, j) { assert EntryOk(s, d, j); }
  }

  /** link, first step: the count goes up before there is an entry. */
  function LinkBegun(s: State, i: int): State
    requires i in s.inodes
  {
    s.(inodes := s.inodes[i := s.inodes[i].(nlink := s.inodes[i].nlink + 1)], pending := s.pending + multiset{i})
  }

  /** link, last step: the entry is made. */
  function LinkDone(s: State, dp: int, k: int, name: string, i: int): State
    requires dp in s.inodes && 0 <= k <= |s.inodes[dp].entries|
  {
    s.(inodes := s.inodes[dp := s.inodes[dp].(entries := Put(s.inodes[dp].entries, k, Dirent(name, i)))],
       pending := s.pending - multiset{i})
  }

  /** link, undone. */
  function LinkUndone(s: State, i: int): State
    requires i in s.inodes
  {
    s.(inodes := s.inodes[i := s.inodes[i].(nlink := s.inodes[i].nlink - 1)], pending := s.pending - multiset{i})
  }

  /** A change of nlink and pending alone, of something that is not a directory. */
  lemma Recounted(s: State, t: State, i: int)
    requires Inv(s) && i in s.inodes && s.inodes[i].kind != Dir && s.inodes[i].kind != Unused && i in t.inodes
    requires t == s.(inodes := s.inodes[i := s.inodes[i].(nlink := t.inodes[i].nlink)], pending := t.pending)
    requires t.inodes[i].nlink - t.pending[i] == s.inodes[i].nlink - s.pending[i]
    requires forall x :: x != i ==> t.pending[x] == s.pending[x]
    ensures Inv(t)
  {
    SameDirsBy(s, t, i);
    forall x | x in s.inodes ensures CountOk(t, x) { SameCount(s, t, x); }
    forall x | x in t.pending ensures x in s.inodes && s.inodes[x].kind != Dir { }
    assert Counts(t);
    SameTree(s, t);
  }

  lemma LinkBegunKeeps(s: State, i: int)
    requires Inv(s) && i in s.inodes && s.inodes[i].kind != Dir && s.inodes[i].kind != Unused
    ensures Inv(LinkBegun(s, i))
  {
    Recounted(s, LinkBegun(s, i), i);
  }

  lemma LinkUndoneKeeps(s: State, i: int)
    requires Inv(s) && i in s.pending
    ensures i in s.inodes && Inv(LinkUndone(s, i))
  {
    assert CountOk(s, i);
    Recounted(s, LinkUndone(s, i), i);
  }

  lemma LinkDoneLinks(s: State, dp: int, k: int, name: string, i: int, x: int)
    requires Inv(s) && CanEnter(s, dp, k, name) && i in s.pending && x != 0
    ensures k >= 2 && !IsDot(name)
    ensures Links(LinkDone(s, dp, k, name, i), x) == Links(s, x) + (if x == i && Live(s, dp) then {(dp, k)} else {})
    ensures (dp, k) !in Links(s, x)
  {
    var t := LinkDone(s, dp, k, name, i);
    assert DirOk(s, dp) && k >= 2;
    forall d, j ensures Link(t, x, d, j) <==> Link(s, x, d, j) || (x == i && d == dp && j == k && Live(s, dp)) { }
    LinksDiffer(s, t, x, {}, if x == i && Live(s, dp) then {(dp, k)} else {});
  }

  lemma LinkDoneKeeps(s: State, dp: int, k: int, name: string, i: int)
    requires Inv(s) && CanEnter(s, dp, k, name) && i in s.pending && Live(s, dp)
    ensures Inv(LinkDone(s, dp, k, name, i))
  {
    var t := LinkDone(s, dp, k, name, i);
    assert i in s.inodes && i != dp && i != 0;
    forall x | x in t.inodes ensures CountOk(t, x) { LinkDoneCount(s, dp, k, name, i, x); }
    forall x | x in t.pending ensures x in s.pending { }
    assert Counts(t);
    LinkDoneTree(s, dp, k, name, i);
  }

  lemma LinkDoneCount(s: State, dp: int, k: int, name: string, i: int, x: int)
    requires Inv(s) && CanEnter(s, dp, k, name) && i in s.pending && Live(s, dp) && x in s.inodes
    ensures CountOk(LinkDone(s, dp, k, name, i), x)
  {
    assert CountOk(s, x) && i != dp;
    LinkDoneLinks(s, dp, k, name, i, x);
    LinkDonePending(s, dp, k, name, i, x);
  }

  lemma LinkDonePending(s: State, dp: int, k: int, name: string, i: int, x: int)
    requires dp in s.inodes && 0 <= k <= |s.inodes[dp].entries| && i in s.pending && x in s.inodes
    ensures var t := LinkDone(s, dp, k, name, i);
            && t.inodes[x].nlink == s.inodes[x].nlink && t.inodes[x].kind == s.inodes[x].kind
            && t.pending[x] == s.pending[x] - if x == i then 1 else 0
  {
  }

  lemma LinkDoneTree(s: State, dp: int, k: int, name: string, i: int)
    requires Inv(s) && CanEnter(s, dp, k, name) && i in s.pending && Live(s, dp)
    ensures Tree(LinkDone(s, dp, k, name, i))
  {
    var t := LinkDone(s, dp, k, name, i);
    assert i in s.inodes && i != 0;
    LinkDoneLinks(s, dp, k, name, i, i);
    forall d | IsDir(t, d) ensures DirOk(t, d) { assert DirOk(s, d); }
    forall d | Live(t, d) ensures HangsOn(t, d) { LinkDoneHangs(s, dp, k, name, i, d); }
    forall d | IsDir(t, d) && !Live(t, d) ensures Empty(t, d) { assert Empty(s, d); }
    forall d, j, x | Names(t, d, j, x) && IsDir(t, x) ensures NamedOnce(t, d, j, x) {
      assert Names(s, d, j, x) && NamedOnce(s, d, j, x);
      forall m | Names(t, d, m, x) ensures m == j { assert Names(s, d, m, x); }
    }
    forall d, j | Live(t, d) && 0 <= j < |t.inodes[d].entries| ensures EntryOk(t, d, j) {
      if j < |s.inodes[d].entries| { assert EntryOk(s, d, j); }
    }
  }

  lemma LinkDoneHangs(s: State, dp: int, k: int, name: string, i: int, d: int)
    requires Inv(s) && CanEnter(s, dp, k, name) && Live(s, dp) && k >= 2 && Live(s, d)
    ensures HangsOn(LinkDone(s, dp, k, name, i), d)
  {
    var t := LinkDone(s, dp, k, name, i);
    assert DirOk(s, d) && HangsOn(s, d);
    if d != s.root {
      var j :| Names(s, Parent(s, d), j, d);
      assert Names(t, Parent(t, d), j, d);
    }
  }

  lemma LinkDoneIff(s: State, dp: int, k: int, name: string, i: int)
    requires Inv(s) && CanEnter(s, dp, k, name) && i in s.pending
    ensures Inv(LinkDone(s, dp, k, name, i)) <==> Live(s, dp)
  {
    var t := LinkDone(s, dp, k, name, i);
    if Live(s, dp) {
      LinkDoneKeeps(s, dp, k, name, i);
    } else {
      assert i in s.inodes && i != dp && CountOk(s, i);
      LinkDoneLinks(s, dp, k, name, i, i);
      assert !CountOk(t, i);
    }
  }

  // ----- iput -----

  /** An inode without links is freed. */
  function Released(s: State, i: int): State
    requires i in s.inodes
  {
    s.(inodes := s.inodes[i := Inode(Unused, 0, [])])
  }

  /** What is freed has no entry and no link in progress. */
  lemma ReleaseKeeps(s: State, i: int)
    requires Inv(s) && i in s.inodes && s.inodes[i].kind != Unused && s.inodes[i].nlink == 0
    ensures Links(s, i) == {} && s.pending[i] == 0
    ensures Inv(Released(s, i))
  {
    var t := Released(s, i);
    assert CountOk(s, i);
    SameDirsBy(s, t, i);
    forall x | x in t.inodes ensures CountOk(t, x) { SameCount(s, t, x); }
    assert Counts(t);
    SameTree(s, t);
  }
}
