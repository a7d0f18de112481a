/** Deleting a file and, for a directory, everything below it. */
module Purge {
  import opened Layout
  import opened Disk
  import opened Chains
  import opened Results
  import opened Image
  import opened Resize
  import opened Truncate
  import opened Namespace
  import opened Directories

  /** The shape of a subtree: an inode and the subtrees of its items, in item order. */
  datatype Tree = Tree(inode: int, kids: seq<Tree>)

  ghost function Inodes(t: Tree): set<int>
    decreases t, 1
  {
    {t.inode} + InodesOf(t.kids)
  }

  ghost function InodesOf(kids: seq<Tree>): set<int>
    decreases kids, 0
  {
    if kids == [] then {} else Inodes(kids[0]) + InodesOf(kids[1..])
  }

  /** t is the subtree of files below its inode: every file below it is reached exactly once. */
  ghost predicate IsTree(files: Files, t: Tree)
    decreases t, 1
  {
    && t.inode in files && t.inode !in InodesOf(t.kids)
    && (if IsDirectory(files[t.inode])
        then DirectoryItems(files[t.inode]).Ok? && AreTrees(files, DirectoryItems(files[t.inode]).value, t.kids)
        else t.kids == [])
  }

  ghost predicate AreTrees(files: Files, items: seq<Item>, kids: seq<Tree>)
    decreases kids, 0
  {
    && |items| == |kids|
    && (kids != [] ==>
      && items[0].inode == kids[0].inode && IsTree(files, kids[0])
      && Inodes(kids[0]) !! InodesOf(kids[1..])
      && AreTrees(files, items[1..], kids[1..]))
  }

  lemma {:induction false} TreeInodes(files: Files, t: Tree)
    requires IsTree(files, t)
    ensures Inodes(t) <= files.Keys
    decreases t, 1
  {
    hide Items, IsDirectory;
    if IsDirectory(files[t.inode]) { TreesInodes(files, DirectoryItems(files[t.inode]).value, t.kids); }
  }

  lemma {:induction false} TreesInodes(files: Files, items: seq<Item>, kids: seq<Tree>)
    requires AreTrees(files, items, kids)
    ensures InodesOf(kids) <= files.Keys
    decreases kids, 0
  {
    hide Items, IsDirectory, DirectoryItems;
    if kids != [] {
      TreeInodes(files, kids[0]);
      TreesInodes(files, items[1..], kids[1..]);
    }
  }

  /** Dropping files outside a subtree leaves the subtree. */
  lemma {:induction false} TreeFrame(files: Files, t: Tree, gone: set<int>)
    requires IsTree(files, t) && gone !! Inodes(t)
    ensures IsTree(files - gone, t)
    decreases t, 1
  {
    hide Items, IsDirectory, DirectoryItems;
    assert t.inode in Inodes(t);
    if IsDirectory(files[t.inode]) { TreesFrame(files, DirectoryItems(files[t.inode]).value, t.kids, gone); }
  }

  lemma {:induction false} TreesFrame(files: Files, items: seq<Item>, kids: seq<Tree>, gone: set<int>)
    requires AreTrees(files, items, kids) && gone !! InodesOf(kids)
    ensures AreTrees(files - gone, items, kids)
    decreases kids, 0
  {
    hide Items, IsDirectory, DirectoryItems;
    if kids != [] {
      TreeFrame(files, kids[0], gone);
      TreesFrame(files, items[1..], kids[1..], gone);
    }
  }

  /** Following the chains of the files in s leads to a 0, behind unused blocks at most. */
  ghost predicate AllEnd(g: Geometry, d: Disk, live: map<int, seq<int>>, s: set<int>)
    requires g.Ok() && d.Shaped(g)
  {
    forall h :: h in s && h in live ==> Ends(g, d, live[h])
  }

  /** The blocks of the files in s. */
  ghost function BlocksOf(live: map<int, seq<int>>, s: set<int>): set<int> {
    set h, b | h in live && h in s && b in live[h] :: b
  }

  lemma BlocksOfSplit(live: map<int, seq<int>>, s: set<int>, t: set<int>)
    requires s !! t
    ensures BlocksOf(live, s + t) == BlocksOf(live, s) + BlocksOf(live - s, t)
  {
    forall b | b in BlocksOf(live, s + t)
      ensures b in BlocksOf(live, s) + BlocksOf(live - s, t)
    {
      var h :| h in live && h in s + t && b in live[h];
      if h in t { assert h in live - s && b in (live - s)[h]; }
    }
    forall b | b in BlocksOf(live, s) + BlocksOf(live - s, t)
      ensures b in BlocksOf(live, s + t)
    {
      if b in BlocksOf(live, s) {
        var h :| h in live && h in s && b in live[h];
        assert h in s + t;
      } else {
        var h :| h in live - s && h in t && b in (live - s)[h];
        assert h in s + t && h in live;
      }
    }
  }

  lemma BlocksOfOne(live: map<int, seq<int>>, h: int)
    requires h in live
    ensures BlocksOf(live, {h}) == Set(live[h]) && BlocksOf(live, {}) == {}
  {
    assert forall b :: b in live[h] ==> b in BlocksOf(live, {h});
  }

  lemma UsedEnds(g: Geometry, d: Disk, live: map<int, seq<int>>, s: set<int>, u: set<int>, gone: set<int>)
    requires g.Ok() && d.Shaped(g) && AllEnd(g, d, live, s) && u <= d.used
    ensures d.(used := u).Shaped(g) && AllEnd(g, d.(used := u), live - gone, s)
  {
    hide Ends;
    forall h | h in s && h in live - gone
      ensures Ends(g, d.(used := u), (live - gone)[h])
    {
      EndsShrunk(g, d, u, live[h]);
    }
  }

  lemma EndsShrunk(g: Geometry, d: Disk, u: set<int>, c: seq<int>)
    requires g.Ok() && d.Shaped(g) && Ends(g, d, c) && u <= d.used
    ensures d.(used := u).Shaped(g) && Ends(g, d.(used := u), c)
  {
    hide Linked;
    var rest :| Walks(g, d, c, rest);
    UsedIrrelevant(g, d, u, rest);
    assert Walks(g, d.(used := u), c, rest);
  }

  lemma NextKid(files: Files, items: seq<Item>, kids: seq<Tree>)
    requires AreTrees(files, items, kids) && kids != []
    ensures |items| == |kids| && items[0].inode == kids[0].inode && IsTree(files, kids[0])
    ensures Inodes(kids[0]) !! InodesOf(kids[1..]) && InodesOf(kids) == Inodes(kids[0]) + InodesOf(kids[1..])
    ensures AreTrees(files - Inodes(kids[0]), items[1..], kids[1..])
  {
    TreesFrame(files, items[1..], kids[1..], Inodes(kids[0]));
  }

  lemma TreeTop(files: Files, t: Tree)
    requires IsTree(files, t)
    ensures t.inode in files && t.inode !in InodesOf(t.kids) && Inodes(t) == {t.inode} + InodesOf(t.kids)
    ensures IsDirectory(files[t.inode]) ==>
              DirectoryItems(files[t.inode]).Ok? && AreTrees(files, DirectoryItems(files[t.inode]).value, t.kids)
    ensures !IsDirectory(files[t.inode]) ==> InodesOf(t.kids) == {}
  {
  }

  /** Where a purge stands: the files of gone are deleted, and nothing else has changed. */
  ghost predicate Purged(g: Geometry, d: Disk, live: map<int, seq<int>>, e: Disk, left: map<int, seq<int>>,
                         gone: set<int>)
    requires g.Ok() && Wf(g, d, live)
  {
    && Wf(g, e, left) && left == live - gone
    && FilesOf(g, e, left) == FilesOf(g, d, live) - gone
    && e == d.(used := d.used - BlocksOf(live, gone))
  }

  lemma PurgedNothing(g: Geometry, d: Disk, live: map<int, seq<int>>)
    requires g.Ok() && Wf(g, d, live)
    ensures Purged(g, d, live, d, live, {})
  {
    hide Wf, FilesOf;
    assert BlocksOf(live, {}) == {};
    assert live - {} == live;
    assert FilesOf(g, d, live) - {} == FilesOf(g, d, live);
  }

  lemma PurgedTrans(g: Geometry, d: Disk, live: map<int, seq<int>>, e: Disk, mid: map<int, seq<int>>, s: set<int>,
                    f: Disk, left: map<int, seq<int>>, t: set<int>)
    requires g.Ok() && Wf(g, d, live) && Purged(g, d, live, e, mid, s) && Purged(g, e, mid, f, left, t) && s !! t
    ensures Purged(g, d, live, f, left, s + t)
  {
    hide Wf, FilesOf, BlocksOf;
    BlocksOfSplit(live, s, t);
    assert live - s - t == live - (s + t);
    assert FilesOf(g, d, live) - s - t == FilesOf(g, d, live) - (s + t);
  }

  lemma PurgedEnds(g: Geometry, d: Disk, live: map<int, seq<int>>, e: Disk, left: map<int, seq<int>>,
                         gone: set<int>, s: set<int>, rest: set<int>)
    requires g.Ok() && Wf(g, d, live) && Purged(g, d, live, e, left, gone) && d.Shaped(g)
    requires AllEnd(g, d, live, s) && rest <= s
    ensures e.Shaped(g) && AllEnd(g, e, left, rest)
  {
    hide Wf, FilesOf, BlocksOf;
    UsedEnds(g, d, live, s, e.used, gone);
  }

  /** The last step: the file's own chain, once everything below it is gone. */
  lemma PurgedTop(g: Geometry, e: Disk, left: map<int, seq<int>>, h: int)
    requires g.Ok() && Wf(g, e, left) && h in left
    ensures Purged(g, e, left, e.(used := e.used - Set(left[h])), left - {h}, {h})
  {
    hide Wf, FilesOf, BlocksOf;
    DropWf(g, e, left, e.(used := e.used - Set(left[h])), h);
    BlocksOfOne(left, h);
  }

  lemma PurgedFile(g: Geometry, d: Disk, live: map<int, seq<int>>, e: Disk, left: map<int, seq<int>>, gone: set<int>,
                   h: int)
    requires g.Ok() && Wf(g, d, live) && Purged(g, d, live, e, left, gone) && h in live && h !in gone
    ensures h in left && left[h] == live[h] && Wf(g, e, left)
  {
  }

  lemma KidEnds(g: Geometry, d: Disk, live: map<int, seq<int>>, s: set<int>, h: int)
    requires g.Ok() && d.Shaped(g) && AllEnd(g, d, live, s) && h in s && h in live
    ensures Ends(g, d, live[h])
  {
  }

  lemma NoInodes()
    ensures InodesOf([]) == {}
  {
  }

  /** Purges a file: the bits of exactly the blocks of the files in its subtree are cleared, and no
      byte of any data block changes. The recursion is on the subtree. */
  method PurgeFile(fs: FsDescriptors, blockIndex: nat, ghost t: Tree) returns (r: Result<()>)
    requires fs.Valid() && IsTree(fs.Files(), t) && t.inode == blockIndex
    requires AllEnd(fs.g, fs.D(), fs.live, Inodes(t))
    modifies fs`live, fs.container
    ensures r.Ok? && fs.Valid()
    ensures Purged(fs.g, old(fs.D()), old(fs.live), fs.D(), fs.live, Inodes(t))
    decreases t, 1
  {
    hide View, FsDescriptors.Byte, Wf, FilesOf, Linked, Space, Terminated, Walks, BlocksOf, AllEnd, Purged, IsTree,
      AreTrees, Inodes, InodesOf, Items;
    ghost var g, d, live, files := fs.g, fs.D(), fs.live, fs.Files();
    TreeTop(files, t);
    WfFile(g, d, live, blockIndex);
    FileSpace(g, d, live, blockIndex);
    PurgedNothing(g, d, live);
    if fs.Byte(blockIndex, FLAGS_AT) & FLG_DIRECTORY != 0 {
      var content := ReadDirectory(fs, blockIndex);
      assert content.Ok?;
      PurgedEnds(g, d, live, d, live, {}, Inodes(t), InodesOf(t.kids));
      PurgeItems(fs, content.value, t.kids);
    }
    ghost var e, left := fs.D(), fs.live;
    PurgedFile(g, d, live, e, left, InodesOf(t.kids), blockIndex);
    PurgedEnds(g, d, live, e, left, InodesOf(t.kids), Inodes(t), {blockIndex});
    KidEnds(g, e, left, {blockIndex}, blockIndex);
    WfFile(g, e, left, blockIndex);
    ghost var rest :| Walks(g, e, left[blockIndex], rest);
    WalkShape(g, e, left[blockIndex], rest);
    WalkUsed(g, e, left[blockIndex], rest, 0);
    assert rest[0..] == rest && left[blockIndex][0..] == left[blockIndex];
    var purged := PurgeBlocks(fs, blockIndex, rest);
    PurgedTop(g, e, left, blockIndex);
    fs.live := left - {blockIndex};
    PurgedTrans(g, d, live, e, left, InodesOf(t.kids), fs.D(), fs.live, {blockIndex});
    assert InodesOf(t.kids) + {blockIndex} == Inodes(t);
    PurgedValid(g, d, live, fs.D(), fs.live, Inodes(t));
    return Ok(());
  }

  /** The loop of purge_file over the items of a directory. */
  method PurgeItems(fs: FsDescriptors, items: seq<Item>, ghost kids: seq<Tree>)
    requires fs.Valid() && AreTrees(fs.Files(), items, kids)
    requires AllEnd(fs.g, fs.D(), fs.live, InodesOf(kids))
    modifies fs`live, fs.container
    ensures fs.Valid() && Purged(fs.g, old(fs.D()), old(fs.live), fs.D(), fs.live, InodesOf(kids))
    decreases kids, 0
  {
    hide View, Wf, FilesOf, Linked, Space, Terminated, Walks, BlocksOf, AllEnd, Purged, IsTree,
      AreTrees, Inodes, InodesOf, Items;
    ghost var g, d, live, files := fs.g, fs.D(), fs.live, fs.Files();
    ghost var gone := {};
    PurgedNothing(g, d, live);
    SameLength(files, items, kids);
    NoInodes();
    assert items[0..] == items && kids[0..] == kids;
    var i := 0;
    while i < |items|
      invariant i <= |items| == |kids| && fs.Valid() && Purged(g, d, live, fs.D(), fs.live, gone)
      invariant gone + InodesOf(kids[i..]) == InodesOf(kids) && gone !! InodesOf(kids[i..])
      invariant AreTrees(fs.Files(), items[i..], kids[i..])
    {
      ghost var e, mid, kid := fs.D(), fs.live, kids[i];
      NextKid(fs.Files(), items[i..], kids[i..]);
      assert kids[i..][1..] == kids[i + 1..] && items[i..][1..] == items[i + 1..];
      PurgedEnds(g, d, live, e, mid, gone, InodesOf(kids), Inodes(kid));
      var purged := PurgeFile(fs, items[i].inode, kid);
      PurgedFiles(g, e, mid, fs.D(), fs.live, Inodes(kid));
      PurgedTrans(g, d, live, e, mid, gone, fs.D(), fs.live, Inodes(kid));
      gone := gone + Inodes(kid);
      i := i + 1;
    }
    assert kids[i..] == [];
    assert gone == InodesOf(kids);
  }

  lemma SameLength(files: Files, items: seq<Item>, kids: seq<Tree>)
    requires AreTrees(files, items, kids)
    ensures |items| == |kids|
  {
  }

  lemma PurgedFiles(g: Geometry, d: Disk, live: map<int, seq<int>>, e: Disk, left: map<int, seq<int>>, gone: set<int>)
    requires g.Ok() && Wf(g, d, live) && Purged(g, d, live, e, left, gone)
    ensures Wf(g, e, left) && FilesOf(g, e, left) == FilesOf(g, d, live) - gone
  {
  }

  lemma PurgedValid(g: Geometry, d: Disk, live: map<int, seq<int>>, e: Disk, left: map<int, seq<int>>, gone: set<int>)
    requires g.Ok() && Wf(g, d, live) && Purged(g, d, live, e, left, gone)
    ensures Wf(g, e, left) && e.super == d.super
  {
  }
}
