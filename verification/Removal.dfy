/** The remove command: delete the item, then purge the file whose number is the item's index. */
module Removal {
  import opened Bytes
  import opened Layout
  import opened Disk
  import opened Chains
  import opened Results
  import opened Image
  import opened FileIo
  import opened Namespace
  import opened Directories
  import opened Purge
  import opened Retrace
  import opened Subtrees
  import opened Paths
  import opened Runs

  /** How a removal ends: it returns, it dies, or it follows the NULL that get_inode gives for block 0. */
  datatype RmEnd = Returned | Died(error: Error) | Crashed

  /** purge_file with whatever number it is given. */
  method PurgeNumber(fs: FsDescriptors, blockIndex: nat, ghost t: Tree) returns (end: RmEnd)
    requires fs.Valid()
    requires 0 < blockIndex < fs.g.blocksCount ==>
               IsTree(fs.Files(), t) && t.inode == blockIndex && AllEnd(fs.g, fs.D(), fs.live, Inodes(t))
    modifies fs`live, fs.container
    ensures fs.Valid()
    ensures end == if blockIndex == 0 then Crashed
                   else if blockIndex < fs.g.blocksCount then Returned else Died(Internal)
    ensures end == Returned ==> Purged(fs.g, old(fs.D()), old(fs.live), fs.D(), fs.live, Inodes(t))
    ensures end != Returned ==> fs.D() == old(fs.D()) && fs.live == old(fs.live)
  {
    if blockIndex == 0 {
      return Crashed;
    }
    if blockIndex >= fs.g.blocksCount {
      return Died(Internal);
    }
    var purged := PurgeFile(fs, blockIndex, t);
    return Returned;
  }

  /** The subtree that purge_file finds at number k, after the k-th item is gone from dir: in what the
      removed item held, in the rest of the tree, or a file that no directory knows. */
  ghost function Target(t: Tree, dir: int, k: nat): (s: Tree)
    requires dir in Inodes(t) && k < |SubAt(t, dir).kids|
    ensures s.inode == k
  {
    if k in Inodes(Lost(t, dir, k)) then SubAt(Lost(t, dir, k), k)
    else if k in Inodes(Prune(t, dir, k)) then SubAt(Prune(t, dir, k), k)
    else Tree(k, [])
  }

  lemma TargetTree(files: Files, t: Tree, dir: int, k: nat, files': Files)
    requires IsTree(files, t) && Orphans(files, t) && dir in Inodes(t) && Removed(files, dir, k, files') && k in files
    ensures k < |SubAt(t, dir).kids| && IsTree(files', Target(t, dir, k))
  {
    hide Items, DirectoryItems, IsTree, Inodes, Removed;
    PruneTree(files, t, dir, k, files');
    RemovedShape(files, dir, k, files');
    if k in Inodes(Lost(t, dir, k)) {
      WithinTree(files', SubAt(Lost(t, dir, k), k), Lost(t, dir, k));
    } else if k in Inodes(Prune(t, dir, k)) {
      WithinTree(files', SubAt(Prune(t, dir, k), k), Prune(t, dir, k));
    } else {
      EmptyTree(files', k);
    }
  }

  lemma EmptyTree(files: Files, h: int)
    requires h in files && files[h].content == []
    ensures IsTree(files, Tree(h, []))
  {
    NoInodes();
    assert Items([]) == [];
  }

  /** What rm purges is the subtree of what it removed if and only if the item's index happens to be the
      item's inode. */
  lemma RmFreesRemoved(files: Files, t: Tree, dir: int, k: nat, files': Files)
    requires IsTree(files, t) && Orphans(files, t) && dir in Inodes(t) && Removed(files, dir, k, files') && k in files
    ensures dir in files && DirectoryItems(files[dir]).Ok? && k < |DirectoryItems(files[dir]).value|
    ensures k < |SubAt(t, dir).kids|
    ensures Inodes(Target(t, dir, k)) == Inodes(Lost(t, dir, k))
            <==> DirectoryItems(files[dir]).value[k].inode == k
  {
    hide Items, DirectoryItems, IsTree, Removed;
    RemovedShape(files, dir, k, files');
    PruneTree(files, t, dir, k, files');
    var lost := Lost(t, dir, k);
    assert k in Inodes(Target(t, dir, k)) && lost.inode in Inodes(lost);
    if k in Inodes(lost) { WholeTree(files', lost, k); }
  }

  /** The same, counted in blocks. */
  lemma RmFreesBlocks(g: Geometry, d: Disk, live: map<int, seq<int>>, s: set<int>, t: set<int>)
    requires g.Ok() && Wf(g, d, live) && s <= live.Keys && t <= live.Keys
    ensures BlocksOf(live, s) == BlocksOf(live, t) <==> s == t
  {
    if BlocksOf(live, s) == BlocksOf(live, t) {
      SameBlocks(g, d, live, s, t);
      SameBlocks(g, d, live, t, s);
    }
  }

  lemma SameBlocks(g: Geometry, d: Disk, live: map<int, seq<int>>, s: set<int>, t: set<int>)
    requires g.Ok() && Wf(g, d, live) && s <= live.Keys && BlocksOf(live, s) <= BlocksOf(live, t)
    ensures s <= t
  {
    hide Linked, FileOk, Owned;
    forall h | h in s
      ensures h in t
    {
      WfFile(g, d, live, h);
      assert h in live[h] && h in BlocksOf(live, s);
      var k :| k in live && k in t && h in live[k];
    }
  }

  /** With one metadata page the root has number 1: removing the second item of any directory then purges
      the whole namespace but for what was to be removed. In general it is the item whose index is the
      number of metadata pages. */
  lemma RmOfRoot(files: Files, t: Tree, dir: int, k: nat, files': Files)
    requires IsTree(files, t) && dir in Inodes(t) && Removed(files, dir, k, files') && k == t.inode
    ensures k < |SubAt(t, dir).kids|
    ensures Inodes(Target(t, dir, k)) == Inodes(t) - Inodes(Lost(t, dir, k))
  {
    hide Items, DirectoryItems, IsTree, Removed;
    PruneTree(files, t, dir, k, files');
    TreeTop(files, t);
    LostBelow(files, t, dir, k, files');
    PruneTop(t, dir, k);
  }

  lemma LostBelow(files: Files, t: Tree, dir: int, k: nat, files': Files)
    requires IsTree(files, t) && dir in Inodes(t) && Removed(files, dir, k, files')
    ensures k < |SubAt(t, dir).kids| && t.inode !in Inodes(Lost(t, dir, k))
    ensures t.inode in Inodes(Prune(t, dir, k))
  {
    hide Items, DirectoryItems, IsTree, Removed, Inodes, Prune;
    PruneTree(files, t, dir, k, files');
    PruneTop(t, dir, k);
    assert Prune(t, dir, k).inode in Inodes(Prune(t, dir, k)) by { OwnInode(Prune(t, dir, k)); }
  }

  lemma OwnInode(t: Tree)
    ensures t.inode in Inodes(t)
  {
  }

  /** Where index k of a removal lies: not in the tables, and not in the middle of a file. */
  ghost predicate Answerable(g: Geometry, live: map<int, seq<int>>, k: nat) {
    k == 0 || k in live || g.blocksCount <= k
  }

  /** b is a block of a chain behind its first. */
  ghost predicate Inner(live: map<int, seq<int>>, b: int) {
    exists h, i :: h in live && 0 < i < |live[h]| && live[h][i] == b
  }

  /** The indices left out are the numbers of a later metadata page, of an unused block and of a block
      inside a chain: what is there is no header of a file. */
  lemma AnswerableIs(g: Geometry, d: Disk, live: map<int, seq<int>>, k: nat)
    requires g.Ok() && Wf(g, d, live)
    ensures !Answerable(g, live, k)
            <==> 0 < k < g.MetaPages() || (g.IsData(k) && (k !in d.used || Inner(live, k)))
  {
    hide Wf, Linked;
    MetaExact(g);
    UsedExactly(g, d, live, k);
    if k in live {
      HeadOnly(g, d, live, k);
    } else if h :| h in live && k in live[h] {
      WfFile(g, d, live, h);
      var i :| 0 <= i < |live[h]| && live[h][i] == k;
    }
  }

  lemma HeadOnly(g: Geometry, d: Disk, live: map<int, seq<int>>, k: int)
    requires g.Ok() && Wf(g, d, live) && k in live
    ensures g.IsData(k) && k in d.used && !Inner(live, k)
  {
    hide Linked, Owned;
    WfFile(g, d, live, k);
    assert live[k][0] == k && k in Set(live[k]);
    forall h, i | h in live && 0 < i < |live[h]|
      ensures live[h][i] != k
    {
      WfFile(g, d, live, h);
      assert live[h][0] == h;
    }
  }

  /** rm in directory dirInode. The item goes; then for index 0 the process crashes, for an index beyond
      the last block it dies, and otherwise the file of that number is purged with all below it. */
  method RmIn(fs: FsDescriptors, dirInode: nat, name: seq<byte>, ghost t: Tree)
      returns (end: RmEnd, ghost k: nat, ghost mid: Disk, ghost left: map<int, seq<int>>)
    requires fs.Valid() && Healthy(fs.g, fs.D(), fs.live, t) && dirInode in Inodes(t) && dirInode in fs.live
    requires DirectoryItems(fs.Files()[dirInode]).Ok? ==>
               var items := DirectoryItems(fs.Files()[dirInode]).value;
               FindItem(items, name) < |items| ==> Answerable(fs.g, fs.live, FindItem(items, name))
    modifies fs`live, fs.container
    ensures fs.Valid()
    ensures match DirectoryItems(old(fs.Files())[dirInode])
      case Fatal(e) => end == Died(e) && fs.D() == old(fs.D()) && fs.live == old(fs.live)
      case Ok(items) => k == FindItem(items, name)
    ensures DirectoryItems(old(fs.Files())[dirInode]).Ok? ==>
              var items := DirectoryItems(old(fs.Files())[dirInode]).value;
              if k == |items| then end == Died(NotFound) && fs.D() == old(fs.D()) && fs.live == old(fs.live)
              else
                && k < |items|
                && end == (if k == 0 then Crashed else if k in old(fs.live) then Returned else Died(Internal))
    ensures DirectoryItems(old(fs.Files())[dirInode]).Ok? && k < |DirectoryItems(old(fs.Files())[dirInode]).value| ==>
              && Wf(fs.g, mid, left) && Removed(old(fs.Files()), dirInode, k, FilesOf(fs.g, mid, left))
              && k < |SubAt(t, dirInode).kids|
              && if end == Returned then Purged(fs.g, mid, left, fs.D(), fs.live, Inodes(Target(t, dirInode, k)))
                 else fs.D() == mid && fs.live == left
  {
    hide View, Wf, FilesOf, Pristine, IsTree, Inodes, Closed, Plain, Orphans, Ends, Purged, Items, FindItem, RemoveAt,
      Terminated, Removed, Healthy, DirectoryItems, Target;
    ghost var g, d, live, files := fs.g, fs.D(), fs.live, fs.Files();
    HealthyParts(g, d, live, t);
    HealthyEnds(g, d, live, t, dirInode);
    mid, left, k := d, live, 0;
    var removed := RemoveFromDirectory(fs, dirInode, name);
    if removed.Fatal? {
      k := if DirectoryItems(files[dirInode]).Ok? then FindItem(DirectoryItems(files[dirInode]).value, name) else 0;
      return Died(removed.error), k, mid, left;
    }
    mid, left, k := fs.D(), fs.live, removed.value;
    RemovedIs(files, dirInode, k, fs.Files());
    PruneTree(files, t, dirInode, k, fs.Files());
    if k in live {
      TargetTree(files, t, dirInode, k, fs.Files());
      WfFile(g, d, live, k);
      DataNumber(g, k);
    }
    AllEndAfter(g, d, live, mid, left, dirInode, Inodes(Target(t, dirInode, k)));
    end := PurgeNumber(fs, removed.value, Target(t, dirInode, k));
  }

  /** Removing the first item of that name from dir, from disk d to disk e. Where there is no such item,
      nothing happens. Otherwise the item is gone on a disk mid between them; and what is purged after that
      is the file whose number is the item's index, with all below it, if there is such a file. */
  ghost predicate RmEffect(g: Geometry, d: Disk, live: map<int, seq<int>>, t: Tree, dir: int, name: seq<byte>,
                           end: RmEnd, mid: Disk, left: map<int, seq<int>>, e: Disk, now: map<int, seq<int>>)
    requires g.Ok() && Wf(g, d, live)
  {
    && dir in live && dir in Inodes(t)
    && match DirectoryItems(FilesOf(g, d, live)[dir])
       case Fatal(x) => end == Died(x) && e == d && now == live
       case Ok(items) =>
         var k := FindItem(items, name);
         if k == |items| then end == Died(NotFound) && e == d && now == live
         else
           && end == (if k == 0 then Crashed else if k in live then Returned else Died(Internal))
           && Wf(g, mid, left) && Removed(FilesOf(g, d, live), dir, k, FilesOf(g, mid, left))
           && k < |SubAt(t, dir).kids|
           && if end == Returned then Purged(g, mid, left, e, now, Inodes(Target(t, dir, k)))
              else e == mid && now == left
  }

  /** The directory and the name that a removal by path is about. */
  function RmParent(root: int, files: Files, path: seq<byte>): Result<(int, seq<byte>)>
    requires ValidPath(path) ==> Tokens(path) != []
  {
    if !ValidPath(path) then Fatal(InvalidPath) else
      var parts, last := Tokens(path), |Tokens(path)| - 1;
      match Walk(files, root, parts[..last])
      case Fatal(e) => Fatal(e)
      case Ok(dir) => Ok((dir, parts[last]))
  }

  /** The item that rm looks for is the one that the path names. */
  lemma RmNames(root: int, files: Files, path: seq<byte>)
    requires ValidPath(path) && Tokens(path) != []
    ensures var at := RmParent(root, files, path);
      match at
      case Fatal(e) => Walk(files, root, Tokens(path)) == Fatal(e)
      case Ok(parent) =>
        parent.0 in files && DirectoryItems(files[parent.0]).Ok? ==>
          var items := DirectoryItems(files[parent.0]).value;
          var k := FindItem(items, parent.1);
          Walk(files, root, Tokens(path)) == if k < |items| then Ok(items[k].inode) else Fatal(NotFound)
  {
    hide Split, NoDouble, DirectoryItems, FindItem;
    var parts, last := Tokens(path), |Tokens(path)| - 1;
    WalkSplit(files, root, parts[..last], [parts[last]]);
    assert parts == parts[..last] + [parts[last]];
    assert [parts[last]][1..] == [];
  }

  /** Once the item is gone, the path names nothing, unless its directory has another item of that name. */
  lemma RmForgets(files: Files, t: Tree, path: seq<byte>, dir: int, name: seq<byte>, files': Files)
    requires IsTree(files, t) && ValidPath(path) && Tokens(path) != []
    requires RmParent(t.inode, files, path) == Ok((dir, name))
    requires dir in files && DirectoryItems(files[dir]).Ok?
    requires var items := DirectoryItems(files[dir]).value;
      FindItem(items, name) < |items| && Removed(files, dir, FindItem(items, name), files')
    ensures var items := DirectoryItems(files[dir]).value;
      Walk(files', t.inode, Tokens(path)) == Fatal(NotFound)
      <==> forall i :: FindItem(items, name) < i < |items| ==> CString(items[i].name) != name
  {
    hide Split, NoDouble, DirectoryItems, FindItem, IsTree, CString;
    var parts, last := Tokens(path), |Tokens(path)| - 1;
    var items := DirectoryItems(files[dir]).value;
    var k := FindItem(items, name);
    WalkToHere(files, t, dir, files'[dir], parts[..last]);
    WalkSplit(files', t.inode, parts[..last], [name]);
    assert parts == parts[..last] + [name];
    assert [name][1..] == [];
    FindItemFirst(items, name);
    FindItemFirst(RemoveAt(items, k), name);
    var left := RemoveAt(items, k);
    assert forall i :: k < i < |items| ==> left[i - 1] == items[i];
    assert forall i :: 0 <= i < k ==> left[i] == items[i];
  }

  /** The item that the path names has an index that rm can be answered for. */
  ghost predicate RmAnswerable(g: Geometry, live: map<int, seq<int>>, files: Files, path: seq<byte>)
    requires g.Ok()
  {
    && (ValidPath(path) ==> Tokens(path) != [])
    && var parent := RmParent(g.MetaPages(), files, path);
    parent.Ok? && parent.value.0 in files && DirectoryItems(files[parent.value.0]).Ok? ==>
      var items := DirectoryItems(files[parent.value.0]).value;
      FindItem(items, parent.value.1) < |items| ==> Answerable(g, live, FindItem(items, parent.value.1))
  }

  /** rm, which is also the core of the remove request: split, locate the directory, remove, purge. */
  method Rm(fs: FsDescriptors, path: seq<byte>, ghost t: Tree)
      returns (end: RmEnd, ghost mid: Disk, ghost left: map<int, seq<int>>)
    requires fs.Valid() && Healthy(fs.g, fs.D(), fs.live, t) && 0 !in path
    requires RmAnswerable(fs.g, fs.live, fs.Files(), path)
    modifies fs`live, fs.container
    ensures fs.Valid()
    ensures match RmParent(fs.g.MetaPages(), old(fs.Files()), path)
      case Fatal(e) => end == Died(e) && fs.D() == old(fs.D()) && fs.live == old(fs.live)
      case Ok(parent) =>
        RmEffect(fs.g, old(fs.D()), old(fs.live), t, parent.0, parent.1, end, mid, left, fs.D(), fs.live)
  {
    hide View, Wf, FilesOf, Healthy, Walk, Split, NoDouble, DirectoryItems, FindItem, Removed, Target, Inodes, IsTree,
      Closed, Purged, Answerable;
    ghost var files := fs.Files();
    mid, left := fs.D(), fs.live;
    HealthyParts(fs.g, fs.D(), fs.live, t);
    var split := SplitPath(path);
    if split.Fatal? {
      return Died(split.error), mid, left;
    }
    var parts, last := PartsOf(split.value), split.value.count - 1;
    var located := LocatePath(fs, parts[..last]);
    if located.Fatal? {
      return Died(located.error), mid, left;
    }
    WalkInTree(files, t, parts[..last]);
    ghost var k;
    end, k, mid, left := RmIn(fs, located.value, parts[last], t);
  }

  lemma HealthyEnds(g: Geometry, d: Disk, live: map<int, seq<int>>, t: Tree, h: int)
    requires g.Ok() && Wf(g, d, live) && Healthy(g, d, live, t) && h in live
    ensures d.Shaped(g) && Ends(g, d, live[h])
  {
    hide Wf, FilesOf, Ends;
    PristineEnds(g, d, live, h);
  }

  lemma RemovedIs(files: Files, dir: int, k: nat, files': Files)
    requires dir in files && DirectoryItems(files[dir]).Ok? && k < |DirectoryItems(files[dir]).value|
    requires dir in files' && files' == files[dir := files'[dir]] && files'[dir].flags == files[dir].flags
    requires DirectoryItems(files'[dir]) == Ok(RemoveAt(DirectoryItems(files[dir]).value, k))
    ensures Removed(files, dir, k, files')
  {
    hide DirectoryItems;
  }

  lemma DataNumber(g: Geometry, k: nat)
    requires g.Ok() && g.IsData(k)
    ensures 0 < k < g.blocksCount
  {
    MetaExact(g);
  }

  /** After a removal on a disk where nothing was freed before, every chain leads to its end. */
  lemma AllEndAfter(g: Geometry, d: Disk, live: map<int, seq<int>>, e: Disk, left: map<int, seq<int>>,
      h: int, s: set<int>)
    requires g.Ok() && Wf(g, d, live) && Pristine(g, d, live) && Wf(g, e, left) && d.Shaped(g) && e.Shaped(g)
    requires h in live && h in left && left == live[h := left[h]] && Ends(g, e, left[h])
    requires forall j :: j in left && j != h ==> Terminated(g, e, left[j]) == Terminated(g, d, live[j])
    ensures AllEnd(g, e, left, s)
  {
    hide Wf, Ends, Terminated, Linked;
    forall j | j in s && j in left
      ensures Ends(g, e, left[j])
    {
      if j != h {
        PristineEnds(g, d, live, j);
        WfFile(g, e, left, j);
        TerminatedEnds(g, e, left[j]);
      }
    }
  }
}
