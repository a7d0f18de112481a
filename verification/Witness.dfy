/** One small file system, where removal goes wrong: 8 blocks of 512 bytes, packed structs, one metadata
    page, and the files "a" and "b" in the root directory. */
module Witness {
  import opened Bytes
  import opened Layout
  import opened Disk
  import opened Chains
  import opened Results
  import opened Image
  import opened Allocator
  import opened Resize
  import opened Truncate
  import opened FileIo
  import opened Format
  import opened Namespace
  import opened Directories
  import opened Census
  import opened Purge
  import opened Paths
  import opened Retrace
  import opened Subtrees
  import opened Drivers
  import opened Runs
  import opened Removal

  const SMALL := Geometry(512, 8, 36, 29, 21)
  const A: seq<byte> := [97]
  const B: seq<byte> := [98]

  lemma SmallShape()
    ensures SMALL.Ok() && SMALL.Base(8) == 4096 && SMALL.MetaPages() == 1
    ensures SMALL.BlocksRequired(0) == 1 && SMALL.BlocksRequired(ITEM_SIZE) == 1
    ensures SMALL.BlocksRequired(2 * ITEM_SIZE) == 2
    ensures SMALL.BlocksRequired(500) == 2 && SMALL.BlocksRequired(1000) == 3 && SMALL.BlocksRequired(4000) == 8
  {
    BaseIsProduct(SMALL, 8);
    assert SMALL.PagesFor(37) == 1 + SMALL.PagesFor(0);
    assert SMALL.Capacity(1) == 483 by { assert SMALL.Capacity(0) == 0; }
    assert SMALL.Capacity(2) == 483 + 504;
    BlocksRequiredIs(SMALL, 0, 1);
    BlocksRequiredIs(SMALL, ITEM_SIZE, 1);
    BlocksRequiredIs(SMALL, 2 * ITEM_SIZE, 2);
    BlocksRequiredIs(SMALL, 500, 2);
    assert SMALL.Capacity(3) == 483 + 2 * 504;
    BlocksRequiredIs(SMALL, 1000, 3);
    assert SMALL.Capacity(5) == 483 + 4 * 504;
    assert SMALL.Capacity(7) == 483 + 6 * 504;
    BlocksRequiredIs(SMALL, 4000, 8);
  }

  lemma {:induction false} NoTotal(n: nat)
    ensures Total(map[], n) == 0
  {
    if n > 0 { NoTotal(n - 1); }
  }

  lemma RootUsed(d: Disk)
    requires SMALL.Ok() && Wf(SMALL, d, map[1 := [1]])
    ensures |d.used| == 2
  {
    hide Wf;
    SmallShape();
    UsedCount(SMALL, d, map[1 := [1]]);
    NoTotal(8);
    TotalUpdate(map[], 1, [1], 8);
    assert map[][1 := [1]] == map[1 := [1]];
  }

  lemma OneUsed(d: Disk)
    requires SMALL.Ok() && Wf(SMALL, d, map[1 := [1], 2 := [2]])
    ensures |d.used| == 3
  {
    hide Wf;
    SmallShape();
    UsedCount(SMALL, d, map[1 := [1], 2 := [2]]);
    NoTotal(8);
    TotalUpdate(map[], 1, [1], 8);
    TotalUpdate(map[1 := [1]], 2, [2], 8);
    assert map[][1 := [1]] == map[1 := [1]] && map[1 := [1]][2 := [2]] == map[1 := [1], 2 := [2]];
  }

  lemma PackedUsed(g: Geometry, d: Disk, live: map<int, seq<int>>)
    requires g.Ok() && Wf(g, d, live) && Pristine(g, d, live)
    ensures d.used == Below(|d.used|)
  {
    hide Wf;
  }

  lemma FirstAdded(d: Disk)
    requires SMALL.Ok() && d.used == Below(2)
    ensures FirstFree(d.used, 0, 8) == 2
    ensures AddedLive(SMALL, d, map[1 := [1]], 1, 2, 0) == map[1 := [1], 2 := [2]]
  {
    hide FirstFree;
    SmallShape();
    FirstFreeAbove(2, 8);
    assert [1][..1] == [1];
  }

  lemma SecondAdded(d: Disk)
    requires SMALL.Ok() && d.used == Below(3)
    ensures FirstFree(d.used, 0, 8) == 3
    ensures AddedLive(SMALL, d, map[1 := [1], 2 := [2]], 1, 3, ITEM_SIZE) == map[1 := [1, 4], 2 := [2], 3 := [3]]
  {
    hide FirstFree, Below;
    SmallShape();
    FirstFreeAbove(3, 8);
    assert Below(3) + {3} == Below(4);
    FreshAbove(4, 8, 1);
    assert Fresh(Below(4), 8, 1) == [4];
    assert [1] + [4] == [1, 4];
  }

  function Both(): Tree { Tree(1, [Tree(2, []), Tree(3, [])]) }

  lemma BothGrown()
    ensures Insert(Tree(1, []), 1, 2) == Tree(1, [Tree(2, [])])
    ensures Insert(Tree(1, [Tree(2, [])]), 1, 3) == Both()
  {
    assert InsertAll([], 1, 2) == [] && InsertAll([], 1, 3) == [];
    assert Insert(Tree(2, []), 1, 3) == Tree(2, []);
    assert [Tree(2, [])][1..] == [];
    assert InsertAll([Tree(2, [])], 1, 3) == [Tree(2, [])];
  }

  lemma BothInodes()
    ensures Inodes(Both()) == {1, 2, 3} && SubAt(Both(), 1) == Both()
    ensures Inodes(Tree(2, [])) == {2} && Inodes(Tree(3, [])) == {3}
  {
    LeafInodes(2);
    LeafInodes(3);
    NoInodes();
    assert [Tree(2, []), Tree(3, [])][1..] == [Tree(3, [])] && [Tree(3, [])][1..] == [];
  }

  /** The files of the small file system: the names are the items of the root. */
  ghost predicate IsBoth(files: Files) {
    && files.Keys == {1, 2, 3} && files[3] == File(FLG_FILE, []) && |files[1].content| == 2 * ITEM_SIZE
    && DirectoryItems(files[1]) == Ok([Item(2, PaddedName(A)), Item(3, PaddedName(B))])
  }

  ghost predicate IsOne(files: Files) {
    && files.Keys == {1, 2} && files[2] == File(FLG_FILE, []) && |files[1].content| == ITEM_SIZE
    && IsDirectory(files[1]) && DirectoryItems(files[1]) == Ok([Item(2, PaddedName(A))])
  }

  lemma OneCreated(root: Files)
    requires root == map[1 := File(FLG_DIRECTORY, [])]
    ensures CanCreate(root, 1, 2, A) && IsOne(Created(root, 1, 2, FLG_FILE, A))
    ensures IsDirectory(root[1]) && |root[1].content| == 0
  {
    hide PaddedName, ItemBytes;
    assert Items([]) == [];
    CreatedItems(root, 1, 2, FLG_FILE, A);
    assert [] + [Item(2, PaddedName(A))] == [Item(2, PaddedName(A))];
  }

  lemma BothCreated(one: Files)
    requires IsOne(one)
    ensures CanCreate(one, 1, 3, B) && IsBoth(Created(one, 1, 3, FLG_FILE, B))
  {
    hide PaddedName, ItemBytes, Items;
    CreatedItems(one, 1, 3, FLG_FILE, B);
    assert [Item(2, PaddedName(A))] + [Item(3, PaddedName(B))] == [Item(2, PaddedName(A)), Item(3, PaddedName(B))];
  }

  lemma BothFound()
    ensures FindItem([Item(2, PaddedName(A)), Item(3, PaddedName(B))], B) == 1
  {
    hide PaddedName, CString;
    PaddedNameBack(A);
    PaddedNameBack(B);
    var items := [Item(2, PaddedName(A)), Item(3, PaddedName(B))];
    FindBeyond(items, B, 0);
    FindAt(items, B, 1);
  }

  /** init, mkfile /a. */
  method MakeOne() returns (fs: FsDescriptors)
    ensures fresh(fs) && fresh(fs.container) && fs.g == SMALL && SMALL.Ok() && SMALL.MetaPages() == 1 && fs.Valid()
    ensures fs.live == map[1 := [1], 2 := [2]] && |fs.D().used| == 3 && fs.D().used == Below(3)
    ensures Healthy(SMALL, fs.D(), fs.live, Tree(1, [Tree(2, [])])) && IsOne(fs.Files())
  {
    hide View, Wf, FilesOf, Pristine, Healthy, AddedLive, Created, IsOne, FirstFree, Survive, Below, Insert, Inodes,
      CanCreate, IsDirectory;
    SmallShape();
    BothGrown();
    var container := new byte[4096](_ => 0);
    var made := InitFs(SMALL, container);
    fs := made.value;
    RootUsed(fs.D());
    PackedUsed(SMALL, fs.D(), fs.live);
    FirstAdded(fs.D());
    FreshHealthy(SMALL, fs.D(), fs.live);
    OneCreated(fs.Files());
    HealthyParts(SMALL, fs.D(), fs.live, Tree(1, []));
    LeafInodes(1);
    ghost var d, live := fs.D(), fs.live;
    var a, i := AddItem(fs, 1, A, FLG_FILE);
    assert a.Ok?;
    CreatedHealthy(SMALL, d, live, Tree(1, []), fs.D(), fs.live, 1, 2, FLG_FILE, A);
    HealthyParts(SMALL, fs.D(), fs.live, Tree(1, [Tree(2, [])]));
    OneUsed(fs.D());
    PackedUsed(SMALL, fs.D(), fs.live);
  }

  /** init, mkfile /a, mkfile /b. */
  method MakeBoth() returns (fs: FsDescriptors)
    ensures fresh(fs) && fresh(fs.container) && fs.g == SMALL && SMALL.Ok() && SMALL.MetaPages() == 1 && fs.Valid()
    ensures fs.live == map[1 := [1, 4], 2 := [2], 3 := [3]]
    ensures Healthy(SMALL, fs.D(), fs.live, Both()) && IsBoth(fs.Files())
  {
    hide View, Wf, FilesOf, Pristine, Healthy, AddedLive, Created, IsBoth, FirstFree, Survive, Below, Insert, Inodes,
      CanCreate, IsDirectory;
    SmallShape();
    BothGrown();
    fs := MakeOne();
    SecondAdded(fs.D());
    BothCreated(fs.Files());
    HealthyParts(SMALL, fs.D(), fs.live, Tree(1, [Tree(2, [])]));
    OneInodes();
    ghost var d, live := fs.D(), fs.live;
    var b, i := AddItem(fs, 1, B, FLG_FILE);
    assert b.Ok?;
    CreatedHealthy(SMALL, d, live, Tree(1, [Tree(2, [])]), fs.D(), fs.live, 1, 3, FLG_FILE, B);
  }

  lemma OneInodes()
    ensures 1 in Inodes(Tree(1, [Tree(2, [])]))
  {
  }

  lemma BothRemoved(files: Files, left: Files, last: Files)
    requires IsBoth(files) && IsTree(files, Both()) && Removed(files, 1, 1, left)
    requires 1 in Inodes(Both()) && 1 < |SubAt(Both(), 1).kids| && last == left - Inodes(Target(Both(), 1, 1))
    ensures last == map[3 := File(FLG_FILE, [])]
  {
    hide Items, DirectoryItems, IsTree, Removed, PaddedName, Target;
    BothInodes();
    RemovedShape(files, 1, 1, left);
    RmOfRoot(files, Both(), 1, 1, left);
    assert Inodes(Target(Both(), 1, 1)) == {1, 2};
    assert left.Keys == {1, 2, 3} && left[3] == files[3];
    assert last.Keys == {3};
  }

  lemma PathOfA(files: Files)
    ensures ValidPath([47, 97]) && Tokens([47, 97]) == [A] && RmParent(1, files, [47, 97]) == Ok((1, A))
  {
    assert [47, 97][1..] == A && A[..1] == A;
    assert Split(A) == [A];
    assert [A][..0] == [];
  }

  lemma PathOfB(files: Files)
    ensures ValidPath([47, 98]) && Tokens([47, 98]) == [B] && RmParent(1, files, [47, 98]) == Ok((1, B))
  {
    assert [47, 98][1..] == B && B[..1] == B;
    assert Split(B) == [B];
    assert [B][..0] == [];
  }

  /** rm /b: what is left of the file system is "b". */
  method RemoveB() returns (fs: FsDescriptors, end: RmEnd)
    ensures fresh(fs) && fs.Valid() && end == Returned
    ensures fs.Files() == map[3 := File(FLG_FILE, [])]
  {
    hide View, Wf, FilesOf, Pristine, Healthy, PaddedName, Removed, Target, Purged, FindItem, DirectoryItems, Inodes,
      IsTree, Closed, Plain, Orphans;
    fs := MakeBoth();
    ghost var files := fs.Files();
    BothFound();
    BothInodes();
    HealthyParts(SMALL, fs.D(), fs.live, Both());
    PathOfB(files);
    ghost var mid, left;
    end, mid, left := Rm(fs, [47, 98], Both());
    PurgedFiles(SMALL, mid, left, fs.D(), fs.live, Inodes(Target(Both(), 1, 1)));
    BothRemoved(files, FilesOf(SMALL, mid, left), fs.Files());
  }

  /** Deleting the item alone: the root now has one block, and that still points to the one cut off. */
  method CutB() returns (fs: FsDescriptors)
    ensures fresh(fs) && fs.Valid() && 1 in fs.live && |fs.live[1]| == 1
    ensures !fs.IsTerminated(1) && Ends(fs.g, fs.D(), fs.live[1])
  {
    hide View, Wf, FilesOf, Pristine, Healthy, PaddedName, FindItem, DirectoryItems, Ends, Terminated, IsTree, Closed,
      Plain, Orphans, Items;
    fs := MakeBoth();
    ghost var files := fs.Files();
    BothFound();
    SmallShape();
    HealthyParts(SMALL, fs.D(), fs.live, Both());
    HealthyEnds(SMALL, fs.D(), fs.live, Both(), 1);
    var removed := RemoveFromDirectory(fs, 1, B);
    ReadableDirectory(fs.Files()[1]);
    ChainLength(SMALL, fs.D(), fs.live, 1);
  }

  lemma ChainLength(g: Geometry, d: Disk, live: map<int, seq<int>>, h: int)
    requires g.Ok() && Wf(g, d, live) && h in live
    ensures |live[h]| == g.BlocksRequired(|FilesOf(g, d, live)[h].content|)
  {
    hide Wf, FilesOf;
    WfFile(g, d, live, h);
    FileSpace(g, d, live, h);
  }

  /** rm /a: the item goes, and then the process follows the NULL for the item's index. */
  method RemoveA() returns (fs: FsDescriptors, end: RmEnd)
    ensures fresh(fs) && fs.Valid() && end == Crashed
    ensures 1 in fs.Files() && DirectoryItems(fs.Files()[1]) == Ok([Item(3, PaddedName(B))])
  {
    hide View, Wf, FilesOf, Pristine, Healthy, PaddedName, Removed, Target, Purged, FindItem, DirectoryItems, Inodes,
      IsTree, Closed, Plain, Orphans;
    fs := MakeBoth();
    ghost var files := fs.Files();
    FirstFound();
    BothInodes();
    HealthyParts(SMALL, fs.D(), fs.live, Both());
    PathOfA(files);
    ghost var mid, left;
    end, mid, left := Rm(fs, [47, 97], Both());
    RemovedShape(files, 1, 0, fs.Files());
    assert RemoveAt([Item(2, PaddedName(A)), Item(3, PaddedName(B))], 0) == [Item(3, PaddedName(B))];
  }

  lemma FirstFound()
    ensures FindItem([Item(2, PaddedName(A)), Item(3, PaddedName(B))], A) == 0
  {
    hide PaddedName, CString;
    PaddedNameBack(A);
    FindAt([Item(2, PaddedName(A)), Item(3, PaddedName(B))], A, 0);
  }

  /** Writing 4000 bytes to "a", where three blocks are left: "a" is broken for good. */
  method FillA() returns (fs: FsDescriptors, r: Result<()>)
    ensures fresh(fs) && fs.g == SMALL && SMALL.Ok() && fs.Mapped() && r == Fatal(NoSpace)
    ensures Broken(SMALL, fs.D(), 2)
    ensures forall m: map<int, seq<int>> :: 2 in m || m.Keys <= {1, 2} ==> !Wf(SMALL, fs.D(), m)
  {
    hide View, Wf, FilesOf, Pristine, Healthy, Damaged, Broken, Moved, Splice;
    SmallShape();
    fs := MakeOne();
    ghost var d, live := fs.D(), fs.live;
    r := WriteFile(fs, 2, 0, Zeros(4000));
    assert r == Fatal(NoSpace);
    DamagedBroken(SMALL, d, live, fs.D(), 2);
    forall m: map<int, seq<int>> | 2 in m || m.Keys <= {1, 2}
      ensures !Wf(SMALL, fs.D(), m)
    {
      DamagedForGood(SMALL, d, live, fs.D(), 2, m);
    }
  }

  lemma DamagedBroken(g: Geometry, d: Disk, live: map<int, seq<int>>, e: Disk, h: int)
    requires g.Ok() && Wf(g, d, live) && Damaged(g, d, live, e, h)
    ensures e.Shaped(g) && Broken(g, e, h)
  {
    hide Wf, Broken;
  }

  function Zeros(n: nat): (s: seq<byte>)
    ensures |s| == n
  {
    seq(n, _ => 0)
  }

  /** init, and a creation of "a" with both flags. */
  method MakeTwoFaced() returns (fs: FsDescriptors)
    ensures fresh(fs) && fresh(fs.container) && fs.g == SMALL && SMALL.Ok() && fs.Valid()
    ensures fs.live == map[1 := [1], 2 := [2]] && |fs.D().used| == 3
    ensures fs.Files() == Created(map[1 := File(FLG_DIRECTORY, [])], 1, 2, FLG_FILE | FLG_DIRECTORY, A)
  {
    hide View, Wf, FilesOf, Pristine, AddedLive, FirstFree, Survive, Below, Created;
    SmallShape();
    var container := new byte[4096](_ => 0);
    var made := InitFs(SMALL, container);
    fs := made.value;
    RootUsed(fs.D());
    PackedUsed(SMALL, fs.D(), fs.live);
    FirstAdded(fs.D());
    var a, i := AddItem(fs, 1, A, FLG_FILE | FLG_DIRECTORY);
    assert a.Ok?;
    OneUsed(fs.D());
  }

  /** One item written into that file: the namespace names a file that is not there. */
  method BothFlags() returns (fs: FsDescriptors)
    ensures fresh(fs) && fs.Valid() && fs.Files().Keys == {1, 2} && !Closed(fs.Files())
  {
    hide View, Wf, FilesOf, Pristine, PaddedName, ItemBytes, Closed, Moved, Splice, Items, Damaged, WrittenChain,
      IsFile, IsDirectory, Created, DirectoryItems;
    SmallShape();
    fs := MakeTwoFaced();
    ghost var files := fs.Files();
    var it := Item(7, PaddedName(A));
    NewFile(files);
    var r := WriteFile(fs, 2, 0, ItemBytes(it));
    TwoFaced(files, 2, it);
  }

  lemma NewFile(files: Files)
    requires files == Created(map[1 := File(FLG_DIRECTORY, [])], 1, 2, FLG_FILE | FLG_DIRECTORY, A)
    ensures files.Keys == {1, 2} && files[2] == File(FLG_FILE | FLG_DIRECTORY, [])
    ensures IsFile(files[2]) && IsDirectory(files[2]) && DirectoryItems(files[2]) == Ok([])
  {
    hide PaddedName, ItemBytes;
    assert Items([]) == [];
  }

  /** init, mkfile /a, and 1000 bytes for "a". */
  method GrowA() returns (fs: FsDescriptors)
    ensures fresh(fs) && fresh(fs.container) && fs.g == SMALL && SMALL.Ok() && fs.Valid()
    ensures fs.live == map[1 := [1], 2 := [2, 3, 4]] && Pristine(SMALL, fs.D(), fs.live)
  {
    hide View, Wf, FilesOf, Pristine, Healthy, Moved, Splice, Damaged, WrittenChain, Below, IsOne, Fits, IsFile;
    SmallShape();
    fs := MakeOne();
    HealthyParts(SMALL, fs.D(), fs.live, Tree(1, [Tree(2, [])]));
    Grown(fs.D());
    EmptyA(fs.Files());
    var written := WriteFile(fs, 2, 0, Zeros(1000));
    assert written.Ok?;
    assert map[1 := [1], 2 := [2]][2 := [2, 3, 4]] == map[1 := [1], 2 := [2, 3, 4]];
  }

  lemma EmptyA(files: Files)
    requires IsOne(files)
    ensures 2 in files && files[2].content == [] && IsFile(files[2])
  {
    hide DirectoryItems, PaddedName;
  }

  /** "a" cut down to 500 bytes: its second block still points to the third, which is free. */
  method ShrinkA() returns (fs: FsDescriptors)
    ensures fresh(fs) && fresh(fs.container) && fs.g == SMALL && SMALL.Ok() && fs.Valid()
    ensures fs.live == map[1 := [1], 2 := [2, 3]] && fs.D().used == Below(4)
    ensures 3 in fs.D().blocks && fs.D().Cont(SMALL, 3) == 4
  {
    hide View, Wf, FilesOf, Pristine, Resized, Below, Trimmed, Damaged, Ends, Reaches, ResizedChain, ResizedFile,
      Terminated, FirstFree;
    SmallShape();
    fs := GrowA();
    ghost var d, live := fs.D(), fs.live;
    ThreeUsed(d);
    PristineEnds(SMALL, d, live, 2);
    EndsReaches(SMALL, d, live[2]);
    var shrunk := TruncateFile(fs, 2, 500);
    Stale(d, fs.D());
  }

  /** A new file takes that block, and "a" shrinks again: that frees the new file's block. */
  method StealBlock() returns (fs: FsDescriptors)
    ensures fresh(fs) && fs.Mapped() && fs.SuperblockOk() && !fs.Valid()
    ensures 4 in fs.live && fs.live[4] == [4] && 4 !in fs.D().used
  {
    hide View, Wf, FilesOf, Pristine, Resized, Below, Trimmed, Damaged, Ends, Reaches, Leads, ResizedChain, ResizedFile,
      Terminated, FirstFree, SameOutside, Clean, Fits;
    SmallShape();
    fs := ShrinkA();
    ghost var e := fs.D();
    FourFree();
    var made := InitNewFile(fs, FLG_FILE);
    ghost var f, live := fs.D(), fs.live;
    assert made == Ok(4);
    assert live == map[1 := [1], 2 := [2, 3], 4 := [4]];
    Trap(e, f, live);
    var cut := TruncateFile(fs, 2, 0);
    ghost var rest :| Trimmed(SMALL, f, live, fs.D(), 2, 0, rest);
    Trapped(f, live, fs.D(), rest);
  }

  lemma FourFree()
    ensures FirstFree(Below(4), 0, 8) == 4
  {
    FirstFreeAbove(4, 8);
  }

  lemma Grown(d: Disk)
    requires SMALL.Ok() && d.used == Below(3)
    ensures WrittenChain(SMALL, d, [2], 0, 0, 1000) == [2, 3, 4] && Fits(SMALL, d, [2], 1000)
  {
    hide Below, Fresh;
    SmallShape();
    FreshAbove(3, 8, 2);
    assert Fresh(Below(3), 8, 2) == [3, 4];
    assert [2] + [3, 4] == [2, 3, 4];
  }

  lemma ThreeUsed(d: Disk)
    requires SMALL.Ok() && Wf(SMALL, d, map[1 := [1], 2 := [2, 3, 4]])
    requires Pristine(SMALL, d, map[1 := [1], 2 := [2, 3, 4]])
    ensures d.used == Below(5) && |d.used| == 5
  {
    hide Wf, Pristine, Below;
    SmallShape();
    var live: map<int, seq<int>> := map[1 := [1], 2 := [2, 3, 4]];
    UsedCount(SMALL, d, live);
    NoTotal(8);
    TotalUpdate(map[], 1, [1], 8);
    TotalUpdate(map[1 := [1]], 2, [2, 3, 4], 8);
    assert map[][1 := [1]] == map[1 := [1]] && map[1 := [1]][2 := [2, 3, 4]] == live;
    PackedUsed(SMALL, d, live);
  }

  /** The cut link stays, and block 4 is the least free one. */
  lemma Stale(d: Disk, e: Disk)
    requires SMALL.Ok() && Wf(SMALL, d, map[1 := [1], 2 := [2, 3, 4]]) && d.used == Below(5)
    requires Resized(SMALL, d, map[1 := [1], 2 := [2, 3, 4]], e, 2, 500)
    ensures ResizedChain(SMALL, d, [2, 3, 4], 500) == [2, 3]
    ensures e.Shaped(SMALL) && 3 in e.blocks && e.Cont(SMALL, 3) == 4
    ensures e.used == Below(4)
  {
    hide SamePayload, Owned, Space;
    SmallShape();
    assert [2, 3, 4][..2] == [2, 3];
    var c := [2, 3, 4];
    assert d.Cont(SMALL, c[1]) == c[2];
    assert e.used == Below(4);
  }

  lemma Trap(e: Disk, f: Disk, live: map<int, seq<int>>)
    requires SMALL.Ok() && e.Shaped(SMALL) && 3 in e.blocks && e.Cont(SMALL, 3) == 4 && e.used == Below(4)
    requires Wf(SMALL, f, live) && live == map[1 := [1], 2 := [2, 3], 4 := [4]]
    requires SameOutside(e, f, {4}) && f.used == e.used + {4} && f.Shaped(SMALL) && Terminated(SMALL, f, [4])
    ensures Leads(SMALL, f, [2, 3], [2, 3, 4]) && Reaches(SMALL, f, [2, 3])
    ensures Fits(SMALL, f, [2, 3], 0) && !Clean(SMALL, f, [2, 3], 0)
  {
    hide Ends, Walks, Reaches, Wf;
    SmallShape();
    WfFile(SMALL, f, live, 2);
    WfFile(SMALL, f, live, 4);
    LeadsOn(f);
    NotEnding(f, [2, 3], [2, 3, 4]);
  }

  lemma LeadsOn(f: Disk)
    requires SMALL.Ok() && f.Shaped(SMALL) && Linked(SMALL, f, [2, 3]) && 3 in f.blocks && f.Cont(SMALL, 3) == 4
    requires 4 in f.blocks && Terminated(SMALL, f, [4])
    ensures Leads(SMALL, f, [2, 3], [2, 3, 4])
  {
    var c, rest := [2, 3], [2, 3, 4];
    assert f.Cont(SMALL, c[0]) == c[1];
    assert c == rest[..2];
    forall i | 0 <= i < 2
      ensures f.Cont(SMALL, rest[i]) == rest[i + 1]
    {
    }
  }

  lemma NotEnding(f: Disk, c: seq<int>, rest: seq<int>)
    requires SMALL.Ok() && f.Shaped(SMALL) && Leads(SMALL, f, c, rest) && |c| == 2 && |rest| == 3 && rest[2] in f.used
    ensures Reaches(SMALL, f, c) && !Ends(SMALL, f, c)
  {
    hide Leads;
    LeadsUnique(SMALL, f, c, rest);
  }

  lemma Trapped(f: Disk, live: map<int, seq<int>>, e: Disk, rest: seq<int>)
    requires SMALL.Ok() && Wf(SMALL, f, live) && f.Shaped(SMALL) && 2 in live && live[2] == [2, 3]
    requires SMALL.BlocksRequired(0) == 1 && Leads(SMALL, f, [2, 3], [2, 3, 4])
    requires Trimmed(SMALL, f, live, e, 2, 0, rest)
    ensures 4 !in e.used
  {
    hide Wf, Resized, Linked, Terminated;
    LeadsNoLonger(SMALL, f, rest, [2, 3, 4]);
    LeadsNoLonger(SMALL, f, [2, 3, 4], rest);
    assert rest == [2, 3, 4] && rest[1..][1] == 4;
  }
}
