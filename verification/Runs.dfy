/** Whole runs: what every sequence of mkfile, mkdir and write commands keeps. */
module Runs {
  import opened Bytes
  import opened Layout
  import opened Disk
  import opened Chains
  import opened Results
  import opened Image
  import opened Truncate
  import opened FileIo
  import opened Namespace
  import opened Directories
  import opened Purge
  import opened Retrace
  import opened Subtrees
  import opened Census
  import opened Paths
  import opened Drivers
  import opened Format

  /** Nothing is both a file and a directory, and every directory is readable. */
  ghost predicate Plain(files: Files) {
    forall h :: h in files ==>
      && !(IsFile(files[h]) && IsDirectory(files[h]))
      && (IsDirectory(files[h]) ==> DirectoryItems(files[h]).Ok?)
  }

  ghost predicate Healthy(g: Geometry, d: Disk, live: map<int, seq<int>>, t: Tree)
    requires g.Ok() && Wf(g, d, live)
  {
    var files := FilesOf(g, d, live);
    && Pristine(g, d, live) && Closed(files) && Plain(files)
    && IsTree(files, t) && t.inode == g.MetaPages() && Orphans(files, t)
  }

  /** A file outside the tree is what a creation left that found no directory: it is empty. */
  ghost predicate Orphans(files: Files, t: Tree) {
    forall h :: h in files && h !in Inodes(t) ==> files[h].content == []
  }

  // ---- Files that only change their bytes ----

  /** files' differs from files in the bytes of plain files only. */
  ghost predicate SameNames(files: Files, files': Files) {
    && files'.Keys == files.Keys
    && (forall h :: h in files ==> files'[h].flags == files[h].flags)
    && (forall h :: h in files && IsDirectory(files[h]) ==> files'[h].content == files[h].content)
  }

  lemma {:induction false} SameNamesTree(files: Files, files': Files, t: Tree)
    requires SameNames(files, files') && IsTree(files, t)
    ensures IsTree(files', t)
    decreases t, 1
  {
    hide Items;
    if IsDirectory(files[t.inode]) {
      SameNamesTrees(files, files', DirectoryItems(files[t.inode]).value, t.kids);
    }
  }

  lemma {:induction false} SameNamesTrees(files: Files, files': Files, items: seq<Item>, kids: seq<Tree>)
    requires SameNames(files, files') && AreTrees(files, items, kids)
    ensures AreTrees(files', items, kids)
    decreases kids, 0
  {
    hide Items, DirectoryItems, IsDirectory;
    if kids != [] {
      SameNamesTree(files, files', kids[0]);
      SameNamesTrees(files, files', items[1..], kids[1..]);
    }
  }

  lemma SameNamesClosed(files: Files, files': Files)
    requires SameNames(files, files') && Closed(files)
    ensures Closed(files')
  {
    hide Items;
    forall h, i | h in files' && DirectoryItems(files'[h]).Ok? && 0 <= i < |DirectoryItems(files'[h]).value|
      ensures DirectoryItems(files'[h]).value[i].inode in files' && HasNul(DirectoryItems(files'[h]).value[i].name)
    {
      assert DirectoryItems(files'[h]) == DirectoryItems(files[h]);
      assert DirectoryItems(files[h]).value[i].inode in files;
    }
  }

  // ---- Growing the tree ----

  function Insert(t: Tree, dir: int, inode: int): Tree
    decreases t, 1
  {
    Tree(t.inode, InsertAll(t.kids, dir, inode) + if t.inode == dir then [Tree(inode, [])] else [])
  }

  function InsertAll(kids: seq<Tree>, dir: int, inode: int): seq<Tree>
    decreases kids, 0
  {
    if kids == [] then [] else [Insert(kids[0], dir, inode)] + InsertAll(kids[1..], dir, inode)
  }

  lemma {:induction false} InodesSnoc(kids: seq<Tree>, t: Tree)
    ensures InodesOf(kids + [t]) == InodesOf(kids) + Inodes(t)
    decreases |kids|
  {
    hide Inodes;
    if kids == [] {
      assert [t][1..] == [];
      assert [] + [t] == [t];
    } else {
      assert (kids + [t])[1..] == kids[1..] + [t];
      InodesSnoc(kids[1..], t);
    }
  }

  lemma LeafInodes(inode: int)
    ensures Inodes(Tree(inode, [])) == {inode}
  {
  }

  lemma {:induction false} InsertInodes(t: Tree, dir: int, inode: int)
    ensures Inodes(Insert(t, dir, inode)) == Inodes(t) + if dir in Inodes(t) then {inode} else {}
    decreases t, 1
  {
    InsertAllInodes(t.kids, dir, inode);
    if t.inode == dir {
      InodesSnoc(InsertAll(t.kids, dir, inode), Tree(inode, []));
      LeafInodes(inode);
    } else {
      assert InsertAll(t.kids, dir, inode) + [] == InsertAll(t.kids, dir, inode);
    }
  }

  lemma {:induction false} InsertAllInodes(kids: seq<Tree>, dir: int, inode: int)
    ensures InodesOf(InsertAll(kids, dir, inode)) == InodesOf(kids) + if dir in InodesOf(kids) then {inode} else {}
    decreases kids, 0
  {
    hide Inodes, Insert;
    if kids != [] {
      InsertInodes(kids[0], dir, inode);
      InsertAllInodes(kids[1..], dir, inode);
      assert InsertAll(kids, dir, inode)[1..] == InsertAll(kids[1..], dir, inode);
    }
  }

  lemma {:induction false} TreesSnoc(files: Files, items: seq<Item>, kids: seq<Tree>, it: Item, t: Tree)
    requires AreTrees(files, items, kids) && it.inode == t.inode && IsTree(files, t) && InodesOf(kids) !! Inodes(t)
    ensures AreTrees(files, items + [it], kids + [t])
    decreases |kids|
  {
    hide Inodes, IsTree;
    NoInodes();
    if kids == [] {
      assert items + [it] == [it] && kids + [t] == [t];
      assert [it][1..] == [] && [t][1..] == [];
      assert AreTrees(files, [], []);
    } else {
      TreesSnoc(files, items[1..], kids[1..], it, t);
      InodesSnoc(kids[1..], t);
      assert (items + [it])[1..] == items[1..] + [it] && (kids + [t])[1..] == kids[1..] + [t];
    }
  }

  /** Not both flags at once. */
  predicate PlainFlags(flags: byte) { flags & FLG_FILE == 0 || flags & FLG_DIRECTORY == 0 }

  lemma LeafTree(files: Files, inode: int, flags: byte)
    requires inode in files && files[inode] == File(flags, [])
    ensures IsTree(files, Tree(inode, []))
  {
    NoInodes();
  }

  lemma CreatedElsewhere(files: Files, dir: int, inode: nat, flags: byte, name: seq<byte>, h: int)
    requires CanCreate(files, dir, inode, name) && h in files && h != dir
    ensures h in Created(files, dir, inode, flags, name) && Created(files, dir, inode, flags, name)[h] == files[h]
  {
  }

  /** A creation hangs a leaf below its directory in the tree. */
  lemma {:induction false} InsertTree(files: Files, t: Tree, dir: int, inode: nat, flags: byte, name: seq<byte>)
    requires CanCreate(files, dir, inode, name) && IsTree(files, t)
    ensures IsTree(Created(files, dir, inode, flags, name), Insert(t, dir, inode))
    decreases t, 1
  {
    hide Items, DirectoryItems, IsDirectory, Created, Inodes, InodesOf, PaddedName;
    var files' := Created(files, dir, inode, flags, name);
    CreatedKeys(files, dir, inode, flags, name);
    InsertAllInodes(t.kids, dir, inode);
    TreeTop(files, t);
    if IsDirectory(files[t.inode]) {
      InsertAllTree(files, DirectoryItems(files[t.inode]).value, t.kids, dir, inode, flags, name);
    }
    if t.inode == dir {
      CreatedItems(files, dir, inode, flags, name);
      ReadableDirectory(files[dir]);
      var items, kids := DirectoryItems(files[dir]).value, InsertAll(t.kids, dir, inode);
      LeafTree(files', inode, flags);
      LeafInodes(inode);
      TreesInodes(files, items, t.kids);
      TreesSnoc(files', items, kids, Item(inode, PaddedName(name)), Tree(inode, []));
      InodesSnoc(kids, Tree(inode, []));
    } else {
      CreatedElsewhere(files, dir, inode, flags, name, t.inode);
      assert InsertAll(t.kids, dir, inode) + [] == InsertAll(t.kids, dir, inode);
    }
  }

  lemma CreatedKeys(files: Files, dir: int, inode: nat, flags: byte, name: seq<byte>)
    requires CanCreate(files, dir, inode, name)
    ensures Created(files, dir, inode, flags, name).Keys == files.Keys + {inode}
    ensures Created(files, dir, inode, flags, name)[inode] == File(flags, [])
    ensures Created(files, dir, inode, flags, name)[dir].flags == files[dir].flags
    ensures IsDirectory(Created(files, dir, inode, flags, name)[dir]) && IsDirectory(files[dir])
  {
  }

  lemma {:induction false} InsertAllTree(files: Files, items: seq<Item>, kids: seq<Tree>, dir: int, inode: nat,
                                         flags: byte, name: seq<byte>)
    requires CanCreate(files, dir, inode, name) && AreTrees(files, items, kids)
    ensures AreTrees(Created(files, dir, inode, flags, name), items, InsertAll(kids, dir, inode))
    decreases kids, 0
  {
    hide Items, DirectoryItems, IsDirectory, Created, Inodes, PaddedName, IsTree, Insert;
    if kids != [] {
      InsertTree(files, kids[0], dir, inode, flags, name);
      InsertAllTree(files, items[1..], kids[1..], dir, inode, flags, name);
      InsertInodes(kids[0], dir, inode);
      InsertAllInodes(kids[1..], dir, inode);
      TreeInodes(files, kids[0]);
      TreesInodes(files, items[1..], kids[1..]);
      InsertSame(kids[0], dir, inode);
      var all := InsertAll(kids, dir, inode);
      assert all[0] == Insert(kids[0], dir, inode) && all[1..] == InsertAll(kids[1..], dir, inode);
    }
  }

  lemma InsertSame(t: Tree, dir: int, inode: int)
    ensures Insert(t, dir, inode).inode == t.inode
  {
  }

  /** A creation keeps files and directories apart if and only if it does not set both flags. */
  lemma CreatedPlain(files: Files, dir: int, inode: nat, flags: byte, name: seq<byte>)
    requires CanCreate(files, dir, inode, name) && Plain(files)
    ensures Plain(Created(files, dir, inode, flags, name)) <==> PlainFlags(flags)
  {
    hide Items, ItemBytes, PaddedName;
    var files' := Created(files, dir, inode, flags, name);
    CreatedItems(files, dir, inode, flags, name);
    CreatedKeys(files, dir, inode, flags, name);
  }

  /** What that is for: into a file that is both, one write puts an item that names no file. */
  lemma TwoFaced(files: Files, h: int, it: Item)
    requires h in files && IsFile(files[h]) && IsDirectory(files[h]) && DirectoryItems(files[h]).Ok?
    requires it.Ok() && it.inode !in files
    ensures var f := files[h];
      !Closed(files[h := f.(content := Splice(f.content, |f.content|, ItemBytes(it)))])
  {
    hide Items, ItemBytes;
    var f := files[h];
    var files' := files[h := f.(content := Splice(f.content, |f.content|, ItemBytes(it)))];
    assert files'[h].content == f.content + ItemBytes(it);
    ItemsSnoc(f.content, it);
    var items := DirectoryItems(f).value;
    assert DirectoryItems(files'[h]) == Ok(items + [it]) && (items + [it])[|items|] == it;
  }

  // ---- Commands ----

  datatype Command =
    | Make(path: seq<byte>, flags: byte)
    | WriteTo(path: seq<byte>, offset: nat, chunks: seq<seq<byte>>)
  {
    /** What a command line can hold: C strings, a component to create, input in readable pieces. */
    ghost predicate Ok() {
      && 0 !in path
      && (Make? ==> PlainFlags(flags) && (ValidPath(path) ==> Tokens(path) != []))
      && (WriteTo? ==> chunks != [] && forall i :: 0 <= i < |chunks| ==> |chunks[i]| < HALF)
    }
  }

  // ---- What keeps a file system healthy ----

  lemma HealthyParts(g: Geometry, d: Disk, live: map<int, seq<int>>, t: Tree)
    requires g.Ok() && Wf(g, d, live) && Healthy(g, d, live, t)
    ensures var files := FilesOf(g, d, live);
      && Pristine(g, d, live) && Closed(files) && Plain(files) && IsTree(files, t) && Orphans(files, t)
      && t.inode == g.MetaPages() && t.inode in files
  {
    hide Wf, FilesOf, Pristine, Closed, Plain, Orphans;
  }

  lemma SameHealthy(g: Geometry, d: Disk, live: map<int, seq<int>>, t: Tree, e: Disk, mid: map<int, seq<int>>)
    requires g.Ok() && Wf(g, d, live) && Healthy(g, d, live, t) && Wf(g, e, mid) && Pristine(g, e, mid)
    requires FilesOf(g, e, mid) == FilesOf(g, d, live)
    ensures Healthy(g, e, mid, t)
  {
    hide Wf, FilesOf, Pristine, Closed, Plain, Orphans, IsTree;
  }

  lemma CreatedHealthy(g: Geometry, d: Disk, live: map<int, seq<int>>, t: Tree, e: Disk, mid: map<int, seq<int>>,
                       dir: int, inode: nat, flags: byte, name: seq<byte>)
    requires g.Ok() && Wf(g, d, live) && Healthy(g, d, live, t) && Wf(g, e, mid) && Pristine(g, e, mid)
    requires dir in Inodes(t) && PlainFlags(flags) && CanCreate(FilesOf(g, d, live), dir, inode, name)
    requires FilesOf(g, e, mid) == Created(FilesOf(g, d, live), dir, inode, flags, name)
    ensures Healthy(g, e, mid, Insert(t, dir, inode))
  {
    hide Wf, FilesOf, Pristine, Closed, Plain, IsTree, Created, Insert, CanCreate, Orphans;
    var files := FilesOf(g, d, live);
    InsertTree(files, t, dir, inode, flags, name);
    InsertSame(t, dir, inode);
    CreateClosed(files, dir, inode, flags, name);
    CreatedPlain(files, dir, inode, flags, name);
    CreatedOrphans(files, t, dir, inode, flags, name);
  }

  lemma CreatedOrphans(files: Files, t: Tree, dir: int, inode: nat, flags: byte, name: seq<byte>)
    requires dir in Inodes(t) && CanCreate(files, dir, inode, name) && Orphans(files, t)
    ensures Orphans(Created(files, dir, inode, flags, name), Insert(t, dir, inode))
  {
    hide ItemBytes, PaddedName, Insert, Inodes, DirectoryItems;
    InsertInodes(t, dir, inode);
  }

  lemma OrphanHealthy(g: Geometry, d: Disk, live: map<int, seq<int>>, t: Tree, e: Disk, mid: map<int, seq<int>>,
                      inode: int, flags: byte)
    requires g.Ok() && Wf(g, d, live) && Healthy(g, d, live, t) && Wf(g, e, mid) && Pristine(g, e, mid)
    requires PlainFlags(flags) && Orphaned(FilesOf(g, d, live), flags, inode, FilesOf(g, e, mid))
    ensures Healthy(g, e, mid, t)
  {
    hide Wf, FilesOf, Pristine, IsTree;
    var files := FilesOf(g, d, live);
    TreeInodes(files, t);
    TreeElsewhere(files, t, inode, File(flags, []));
    OrphanClosed(files, inode, flags);
  }

  lemma OrphanClosed(files: Files, inode: int, flags: byte)
    requires inode !in files && Closed(files) && Plain(files)
    ensures Closed(files[inode := File(flags, [])])
    ensures Plain(files[inode := File(flags, [])]) <==> PlainFlags(flags)
  {
    hide HasNul;
    var f, files' := File(flags, []), files[inode := File(flags, [])];
    assert Items([]) == [];
    assert files'[inode] == f && forall h :: h in files ==> h in files' && files'[h] == files[h];
    forall h, i | h in files' && DirectoryItems(files'[h]).Ok? && 0 <= i < |DirectoryItems(files'[h]).value|
      ensures DirectoryItems(files'[h]).value[i].inode in files' && HasNul(DirectoryItems(files'[h]).value[i].name)
    {
      assert h != inode && DirectoryItems(files[h]).value[i].inode in files;
    }
  }

  lemma WrittenHealthy(g: Geometry, d: Disk, live: map<int, seq<int>>, t: Tree, e: Disk,
      mid: map<int, seq<int>>, h: int)
    requires g.Ok() && Wf(g, d, live) && Healthy(g, d, live, t) && Wf(g, e, mid) && Pristine(g, e, mid)
    requires h in live && h in mid && h in Inodes(t) && IsFile(FilesOf(g, d, live)[h])
    requires FilesOf(g, e, mid) == FilesOf(g, d, live)[h := FilesOf(g, e, mid)[h]]
    requires FilesOf(g, e, mid)[h].flags == FilesOf(g, d, live)[h].flags
    ensures Healthy(g, e, mid, t)
  {
    hide Wf, FilesOf, Pristine, Closed, Plain, IsTree, SameNames, IsFile, Inodes;
    var files, files' := FilesOf(g, d, live), FilesOf(g, e, mid);
    WriteSameNames(files, files', h);
    SameNamesTree(files, files', t);
    SameNamesClosed(files, files');
    SameNamesPlain(files, files');
  }

  // ---- What one command does ----

  /** How a command that finds blocks enough ends, and what it makes of the files. */
  ghost predicate Effect(root: int, files: Files, c: Command, r: Result<()>, files': Files)
    requires c.Ok()
  {
    match c
    case Make(path, flags) =>
      (match ParentVerdict(root, files, path)
       case Fatal(e) => r == Fatal(e) && files' == files
       case Ok(parent) =>
         && parent.0 in files
         && if IsDirectory(files[parent.0]) then
              r.Ok? && exists inode :: MadeBy(root, files, path, flags, inode, files')
            else
              r == Fatal(NotDirectory) && exists inode :: Orphaned(files, flags, inode, files'))
    case WriteTo(path, offset, chunks) =>
      (match Located(root, files, path)
       case Fatal(e) => r == Fatal(e) && files' == files
       case Ok(h) =>
         && h in files
         && if !IsFile(files[h]) then r == Fatal(NotFile) && files' == files
            else if Flatten(chunks) != [] && |files[h].content| < offset then
              r == Fatal(InvalidPosition) && files' == files
            else r.Ok? && WrittenBy(root, files, path, offset, Flatten(chunks), files'))
  }

  /** The blocks that these files leave over do not suffice for the command. */
  ghost predicate Short(g: Geometry, files: Files, c: Command)
    requires g.Ok() && c.Ok()
  {
    match c
    case Make(path, flags) =>
      var parent := ParentVerdict(g.MetaPages(), files, path);
      parent.Ok? && parent.value.0 in files && ShortOfItem(g, files, parent.value.0)
    case WriteTo(path, offset, chunks) =>
      var at := Located(g.MetaPages(), files, path);
      && at.Ok? && at.value in files && IsFile(files[at.value])
      && ShortOfBytes(g, files, |files[at.value].content|, offset, |Flatten(chunks)|)
  }

  /** One block for the new file, and those that one more item takes. */
  predicate ShortOfItem(g: Geometry, files: Files, dir: int)
    requires g.Ok() && dir in files
  {
    var size := |files[dir].content|;
    || UsedBy(g, files) == g.blocksCount
    || (IsDirectory(files[dir])
        && UsedBy(g, files) + 1 + g.BlocksRequired(size + ITEM_SIZE) > g.blocksCount + g.BlocksRequired(size))
  }

  predicate ShortOfBytes(g: Geometry, files: Files, size: nat, offset: nat, length: nat)
    requires g.Ok()
  {
    && 0 < length && offset <= size < offset + length
    && UsedBy(g, files) + g.BlocksRequired(offset + length) > g.blocksCount + g.BlocksRequired(size)
  }

  lemma ItemVerdict(g: Geometry, d: Disk, live: map<int, seq<int>>, dir: int)
    requires g.Ok() && Wf(g, d, live) && dir in live
    ensures var files := FilesOf(g, d, live);
      AddVerdict(g, d, live, files, dir) == Fatal(FullError(g)) <==> ShortOfItem(g, files, dir)
  {
    hide Wf, FilesOf, UsedBy;
    UsedBySizes(g, d, live);
  }

  lemma BytesVerdict(g: Geometry, d: Disk, live: map<int, seq<int>>, h: int, offset: nat, length: nat)
    requires g.Ok() && Wf(g, d, live) && h in live
    ensures var files := FilesOf(g, d, live);
      var size := |files[h].content|;
      WriteVerdict(g, d, live[h], size, offset, length) == Fatal(FullError(g))
      <==> ShortOfBytes(g, files, size, offset, length)
  {
    hide Wf, FilesOf, UsedBy;
    UsedBySizes(g, d, live);
  }

  /** What is left when a command ran out of blocks: everything else is intact, but a file that was to
      grow is broken, and a new file may be left without an item. */
  ghost predicate Aftermath(g: Geometry, files: Files, c: Command, e: Disk, mid: map<int, seq<int>>)
    requires g.Ok() && c.Ok() && Short(g, files, c)
  {
    match c
    case Make(path, flags) =>
      if UsedBy(g, files) == g.blocksCount then Wf(g, e, mid) && FilesOf(g, e, mid) == files else
        var dir := ParentVerdict(g.MetaPages(), files, path).value.0;
        exists inode :: inode !in files && Survive(g, files[inode := File(flags, [])], e, mid, dir)
    case WriteTo(path, offset, chunks) =>
      Survive(g, files, e, mid, Located(g.MetaPages(), files, path).value)
  }

  /** In a healthy file system a walk fails only where there is nothing, or no directory. */
  lemma {:induction false} WalkErrors(files: Files, h: int, parts: seq<seq<byte>>)
    requires Plain(files) && Closed(files) && h in files
    ensures Walk(files, h, parts).Fatal? ==>
              Walk(files, h, parts).error == NotFound || Walk(files, h, parts).error == NotDirectory
    decreases |parts|
  {
    hide Items, FindItem;
    if parts != [] && DirectoryItems(files[h]).Ok? {
      var items := DirectoryItems(files[h]).value;
      var k := FindItem(items, parts[0]);
      if k < |items| {
        assert items[k].inode in files;
        WalkErrors(files, items[k].inode, parts[1..]);
      }
    }
  }

  lemma PathErrors(files: Files, h: int, path: seq<byte>)
    requires Plain(files) && Closed(files) && h in files && (ValidPath(path) ==> Tokens(path) != [])
    ensures ParentVerdict(h, files, path).Fatal? ==> !Full(ParentVerdict(h, files, path).error)
  {
    hide Walk, Split, NoDouble, Plain, Closed;
    if ValidPath(path) { WalkErrors(files, h, Tokens(path)[..|Tokens(path)| - 1]); }
  }

  lemma LocatedErrors(files: Files, h: int, path: seq<byte>)
    requires Plain(files) && Closed(files) && h in files
    ensures Located(h, files, path).Fatal? ==> !Full(Located(h, files, path).error)
  {
    hide Walk, Split, NoDouble, Plain, Closed;
    if ValidPath(path) { WalkErrors(files, h, Tokens(path)); }
  }

  lemma AddedFull(g: Geometry, d: Disk, live: map<int, seq<int>>, files: Files, dir: int)
    requires g.Ok() && dir in files && files.Keys == live.Keys && AddVerdict(g, d, live, files, dir).Fatal?
    requires Full(AddVerdict(g, d, live, files, dir).error)
    ensures AddVerdict(g, d, live, files, dir) == Fatal(FullError(g))
  {
  }

  /** mkfile or mkdir, which ends like this whenever it does not run out of blocks. */
  method ExecuteMake(fs: FsDescriptors, path: seq<byte>, flags: byte, ghost t: Tree)
      returns (r: Result<()>, ghost t': Tree)
    requires fs.Valid() && Healthy(fs.g, fs.D(), fs.live, t) && Make(path, flags).Ok()
    modifies fs`live, fs.container
    ensures r.Ok? || !Full(r.error) ==> fs.Valid() && Healthy(fs.g, fs.D(), fs.live, t')
    ensures r.Ok? || !Full(r.error) ==> Effect(fs.g.MetaPages(), old(fs.Files()), Make(path, flags), r, fs.Files())
    ensures r.Fatal? && Full(r.error) <==> Short(fs.g, old(fs.Files()), Make(path, flags))
    ensures r.Fatal? && Full(r.error) ==>
              Aftermath(fs.g, old(fs.Files()), Make(path, flags), fs.D(), fs.live)
  {
    hide View, Wf, FilesOf, Pristine, Split, NoDouble, Closed, Plain, IsTree, Created, AddVerdict, ParentVerdict,
      Insert, CanCreate, IsDirectory, MadeBy, Healthy, Orphans, Inodes, Survive, ShortOfItem, UsedBy;
    t' := t;
    ghost var g, d, live, files := fs.g, fs.D(), fs.live, fs.Files();
    HealthyParts(g, d, live, t);
    var made, dir, inode := MakeItem(fs, path, flags);
    ParentInTree(files, t, path);
    PathErrors(files, t.inode, path);
    if ParentVerdict(g.MetaPages(), files, path).Ok? {
      ItemVerdict(g, d, live, dir);
      UsedBySizes(g, d, live);
    }
    r := if made.Ok? then Ok(()) else Fatal(made.error);
    if made.Ok? {
      ghost var name := Tokens(path)[|Tokens(path)| - 1];
      AddedOk(g, d, live, files, dir);
      PlainCanCreate(files, dir, inode, name);
      CreatedHealthy(g, d, live, t, fs.D(), fs.live, dir, inode, flags, name);
      MadeIs(g.MetaPages(), files, path, flags, dir, inode, fs.Files());
      t' := Insert(t, dir, inode);
    } else if !Full(made.error) && ParentVerdict(g.MetaPages(), files, path).Ok? {
      AddedNot(g, d, live, files, dir);
      assert Orphaned(files, flags, inode, fs.Files());
      OrphanHealthy(g, d, live, t, fs.D(), fs.live, inode, flags);
    } else if Full(made.error) {
      AddedFull(g, d, live, files, dir);
    }
  }

  lemma ParentInTree(files: Files, t: Tree, path: seq<byte>)
    requires IsTree(files, t) && (ValidPath(path) ==> Tokens(path) != [])
    ensures ParentVerdict(t.inode, files, path).Ok? ==>
              var p := ParentVerdict(t.inode, files, path).value.0;
              p in Inodes(t) && p in files
  {
    hide IsTree, Walk, Inodes, Split, NoDouble;
    if ValidPath(path) {
      WalkInTree(files, t, Tokens(path)[..|Tokens(path)| - 1]);
      TreeInodes(files, t);
    }
  }

  lemma PlainCanCreate(files: Files, dir: int, inode: nat, name: seq<byte>)
    requires Plain(files) && dir in files && IsDirectory(files[dir]) && CanName(files, inode, name)
    ensures CanCreate(files, dir, inode, name)
  {
  }

  /** write: split, locate, and stream the chunks. */
  method ExecuteWrite(fs: FsDescriptors, path: seq<byte>, offset: nat, chunks: seq<seq<byte>>, ghost t: Tree)
      returns (r: Result<()>)
    requires fs.Valid() && Healthy(fs.g, fs.D(), fs.live, t) && WriteTo(path, offset, chunks).Ok()
    modifies fs`live, fs.container
    ensures r.Ok? || !Full(r.error) ==> fs.Valid() && Healthy(fs.g, fs.D(), fs.live, t)
    ensures r.Ok? || !Full(r.error) ==>
              Effect(fs.g.MetaPages(), old(fs.Files()), WriteTo(path, offset, chunks), r, fs.Files())
    ensures r.Fatal? && Full(r.error) <==> Short(fs.g, old(fs.Files()), WriteTo(path, offset, chunks))
    ensures r.Fatal? && Full(r.error) ==>
              Aftermath(fs.g, old(fs.Files()), WriteTo(path, offset, chunks), fs.D(), fs.live)
  {
    hide View, Wf, FilesOf, Pristine, Split, NoDouble, Closed, Plain, IsTree, WriteVerdict, Splice, Walk, SameNames,
      IsFile, IsDirectory, Flatten, Healthy, Orphans, Inodes, Survive, Located, ShortOfBytes;
    ghost var g, d, live, files := fs.g, fs.D(), fs.live, fs.Files();
    HealthyParts(g, d, live, t);
    LocatedInTree(files, t, path);
    LocatedErrors(files, t.inode, path);
    var inode :- Locate(fs, path);
    r := PerformWrite(fs, inode, offset, chunks);
    if r.Ok? {
      WrittenHealthy(g, d, live, t, fs.D(), fs.live, inode);
    } else if Harmless(r.error) {
      SameHealthy(g, d, live, t, fs.D(), fs.live);
    }
    WriteEnds(g, d, live[inode], files[inode], offset, Flatten(chunks), r);
    BytesVerdict(g, d, live, inode, offset, |Flatten(chunks)|);
  }

  lemma LocatedInTree(files: Files, t: Tree, path: seq<byte>)
    requires IsTree(files, t)
    ensures Located(t.inode, files, path).Ok? ==>
              Located(t.inode, files, path).value in Inodes(t) && Located(t.inode, files, path).value in files
    ensures Located(t.inode, files, path).Ok? ==>
              ValidPath(path) && Walk(files, t.inode, Tokens(path)) == Located(t.inode, files, path)
  {
    hide IsTree, Walk, Inodes, Split, NoDouble;
    if ValidPath(path) {
      WalkInTree(files, t, Tokens(path));
      TreeInodes(files, t);
    }
  }

  lemma WriteEnds(g: Geometry, d: Disk, c: seq<int>, f: File, offset: nat, data: seq<byte>, r: Result<()>)
    requires g.Ok()
    requires r == if !IsFile(f) then Fatal(NotFile) else WriteVerdict(g, d, c, |f.content|, offset, |data|)
    ensures if !IsFile(f) then r == Fatal(NotFile)
            else if data != [] && |f.content| < offset then r == Fatal(InvalidPosition)
            else r.Ok? || r.error == FullError(g)
    ensures r.Fatal? && Full(r.error) <==>
            IsFile(f) && WriteVerdict(g, d, c, |f.content|, offset, |data|) == Fatal(FullError(g))
  {
    hide Fits;
  }

  /** In a tree, what was written at a path is what is read there. */
  lemma WriteReads(files: Files, t: Tree, path: seq<byte>, offset: nat, data: seq<byte>, files': Files)
    requires IsTree(files, t) && WrittenBy(t.inode, files, path, offset, data, files')
    requires data != []
    ensures var at := Located(t.inode, files, path);
      && at.Ok? && at.value in files' && Located(t.inode, files', path) == at
      && Slice(files'[at.value].content, offset, |data|) == data
  {
    hide Walk, Split, NoDouble, IsTree, Slice, Splice;
    var h := Walk(files, t.inode, Tokens(path)).value;
    WalkToHere(files, t, h, files'[h], Tokens(path));
    ReadBack(files[h].content, offset, data, 0);
  }

  lemma WriteSameNames(files: Files, files': Files, h: int)
    requires Plain(files) && h in files && IsFile(files[h])
    requires h in files' && files' == files[h := files'[h]] && files'[h].flags == files[h].flags
    ensures SameNames(files, files')
  {
  }

  lemma SameNamesPlain(files: Files, files': Files)
    requires SameNames(files, files') && Plain(files)
    ensures Plain(files')
  {
    hide Items;
    forall h | h in files' && IsDirectory(files'[h])
      ensures DirectoryItems(files'[h]).Ok?
    {
      assert DirectoryItems(files'[h]) == DirectoryItems(files[h]);
    }
  }

  // ---- Runs ----

  /** The states and results a run of commands goes through, none of which lacks blocks. */
  ghost predicate Trace(g: Geometry, commands: seq<Command>, results: seq<Result<()>>, states: seq<Files>)
    requires g.Ok() && forall i :: 0 <= i < |commands| ==> commands[i].Ok()
  {
    && |results| <= |commands| && |states| == |results| + 1
    && forall i :: 0 <= i < |results| ==>
         && !Short(g, states[i], commands[i])
         && Effect(g.MetaPages(), states[i], commands[i], results[i], states[i + 1])
  }

  lemma TraceNext(g: Geometry, commands: seq<Command>, results: seq<Result<()>>, states: seq<Files>, r: Result<()>,
                  files': Files)
    requires g.Ok() && forall i :: 0 <= i < |commands| ==> commands[i].Ok()
    requires |results| < |commands| && Trace(g, commands, results, states)
    requires !Short(g, states[|results|], commands[|results|])
    requires Effect(g.MetaPages(), states[|results|], commands[|results|], r, files')
    ensures Trace(g, commands, results + [r], states + [files'])
  {
    hide Effect, Short;
  }

  /** Runs commands one after the other, whether they succeed or die, until one finds too few blocks. However
      long the run is, the file system stays healthy, and the files go through the effects of the
      commands, one by one. The run stops at the first command for which the blocks that the files leave
      over do not suffice, and at no other. */
  method Run(fs: FsDescriptors, commands: seq<Command>, ghost t: Tree)
      returns (results: seq<Result<()>>, full: bool, ghost t': Tree, ghost states: seq<Files>)
    requires fs.Valid() && Healthy(fs.g, fs.D(), fs.live, t)
    requires forall i :: 0 <= i < |commands| ==> commands[i].Ok()
    modifies fs`live, fs.container
    ensures Trace(fs.g, commands, results, states) && states[0] == old(fs.Files())
    ensures full <==> |results| < |commands|
    ensures full ==> Short(fs.g, states[|results|], commands[|results|])
    ensures full ==> Aftermath(fs.g, states[|results|], commands[|results|], fs.D(), fs.live)
    ensures !full ==> fs.Valid() && Healthy(fs.g, fs.D(), fs.live, t') && states[|commands|] == fs.Files()
  {
    hide Healthy, Wf, View, FilesOf, Effect, Short, Aftermath;
    t', full := t, false;
    results, states := [], [fs.Files()];
    while |results| < |commands|
      invariant fs.Valid() && Healthy(fs.g, fs.D(), fs.live, t')
      invariant Trace(fs.g, commands, results, states)
      invariant states[0] == old(fs.Files()) && states[|results|] == fs.Files()
      decreases |commands| - |results|
    {
      var i := |results|;
      var r;
      match commands[i] {
        case Make(path, flags) =>
          ghost var u;
          r, u := ExecuteMake(fs, path, flags, t');
          t' := u;
        case WriteTo(path, offset, chunks) =>
          r := ExecuteWrite(fs, path, offset, chunks, t');
      }
      if r.Fatal? && Full(r.error) {
        full := true;
        return;
      }
      TraceNext(fs.g, commands, results, states, r, fs.Files());
      results, states := results + [r], states + [fs.Files()];
    }
  }

  /** A file system made on zeroes is healthy: its tree is the root. */
  lemma FreshHealthy(g: Geometry, d: Disk, live: map<int, seq<int>>)
    requires g.Ok() && Wf(g, d, live) && Pristine(g, d, live)
    requires FilesOf(g, d, live) == map[g.MetaPages() := File(FLG_DIRECTORY, [])]
    ensures Healthy(g, d, live, Tree(g.MetaPages(), []))
  {
    hide Wf, FilesOf, Pristine;
    var files := FilesOf(g, d, live);
    var f := File(FLG_DIRECTORY, []);
    assert DirectoryItems(f) == Ok([]);
    NoInodes();
    LeafTree(files, g.MetaPages(), FLG_DIRECTORY);
  }

  /** init_fs on a container of zeroes, then any run of commands. */
  method InitAndRun(g: Geometry, container: array<byte>, commands: seq<Command>)
      returns (r: Result<FsDescriptors>, results: seq<Result<()>>, full: bool, ghost t: Tree, ghost states: seq<Files>)
    requires g.Ok() && container.Length == g.Base(g.blocksCount)
    requires forall i :: 0 <= i < container.Length ==> container[i] == 0
    requires forall i :: 0 <= i < |commands| ==> commands[i].Ok()
    modifies container
    ensures r.Fatal? <==> g.MetaPages() == g.blocksCount
    ensures r.Ok? ==> Trace(g, commands, results, states)
    ensures r.Ok? ==> states[0] == map[g.MetaPages() := File(FLG_DIRECTORY, [])]
    ensures r.Ok? ==> (full <==> |results| < |commands|)
    ensures r.Ok? ==> r.value.g == g && r.value.Mapped()
    ensures r.Ok? && full ==> Short(g, states[|results|], commands[|results|])
    ensures r.Ok? && full ==> Aftermath(g, states[|results|], commands[|results|], r.value.D(), r.value.live)
    ensures r.Ok? && !full ==> r.value.Valid() && r.value.g == g && Healthy(g, r.value.D(), r.value.live, t)
    ensures r.Ok? && !full ==> states[|commands|] == r.value.Files()
  {
    hide Healthy, Wf, View, FilesOf, Pristine, Effect, Short, Aftermath;
    t, states, results, full := Tree(0, []), [], [], false;
    r := InitFs(g, container);
    if r.Ok? {
      var fs := r.value;
      t := Tree(g.MetaPages(), []);
      FreshHealthy(g, fs.D(), fs.live);
      ghost var u;
      results, full, u, states := Run(fs, commands, t);
      t := u;
    }
  }

  /** A bit is set exactly for the metadata pages and the blocks of the chains. */
  lemma UsedExactly(g: Geometry, d: Disk, live: map<int, seq<int>>, b: int)
    requires g.Ok() && Wf(g, d, live)
    ensures b in d.used <==> 0 <= b < g.MetaPages() || exists h :: h in live && b in live[h]
  {
    hide FileOk;
    if exists h :: h in live && b in live[h] {
      var h :| h in live && b in live[h];
      WfFile(g, d, live, h);
      assert b in Set(live[h]);
    }
    if b in Owned(live, g.blocksCount) {
      var h := OwnedWho(live, g.blocksCount, b);
    }
  }

  /** What a chain is in a healthy file system: in range, without repetition, linked, as long as its
      size requires, and ended both by 0 and by last_inode. */
  ghost predicate GoodChain(g: Geometry, d: Disk, h: int, c: seq<int>)
    requires g.Ok() && d.Shaped(g)
  {
    && c != [] && c[0] == h && Distinct(c) && (forall i :: 0 <= i < |c| ==> g.IsData(c[i]))
    && (forall i {:trigger c[i]} :: 0 <= i < |c| - 1 ==> d.Word(c[i], 0) == c[i + 1])
    && |c| == g.BlocksRequired(d.Size(g, h))
    && d.Last(g, h) == c[|c| - 1] && d.Cont(g, c[|c| - 1]) == 0
  }

  lemma LiveGoodChain(g: Geometry, d: Disk, live: map<int, seq<int>>, h: int)
    requires g.Ok() && Wf(g, d, live) && Pristine(g, d, live) && h in live
    ensures d.Shaped(g) && GoodChain(g, d, h, live[h])
  {
    hide Owned, Apart;
    var c := live[h];
    forall i | 0 <= i < |c| - 1
      ensures d.Word(c[i], 0) == c[i + 1]
    {
      assert d.Cont(g, c[i]) == c[i + 1];
    }
  }

  /** What health means block by block: the set bits are exactly the metadata pages and the chains;
      chains are good and do not meet; free blocks hold 0; and the used blocks add up. */
  lemma HealthyBlocks(g: Geometry, d: Disk, live: map<int, seq<int>>, t: Tree)
    requires g.Ok() && Wf(g, d, live) && Healthy(g, d, live, t)
    ensures d.Shaped(g)
    ensures forall b :: b in d.used <==> 0 <= b < g.MetaPages() || exists h :: h in live && b in live[h]
    ensures forall h, k, b :: h in live && k in live && b in live[h] && b in live[k] ==> h == k
    ensures forall h :: h in live ==> GoodChain(g, d, h, live[h])
    ensures forall b :: g.IsData(b) && b !in d.used ==> d.Cont(g, b) == 0
    ensures |d.used| == g.MetaPages() + Total(live, g.blocksCount)
  {
    hide Owned, FileOk, Closed, Plain, IsTree, GoodChain, Total;
    UsedCount(g, d, live);
    forall b
      ensures b in d.used <==> 0 <= b < g.MetaPages() || exists h :: h in live && b in live[h]
    {
      UsedExactly(g, d, live, b);
    }
    forall h | h in live
      ensures GoodChain(g, d, h, live[h])
    {
      LiveGoodChain(g, d, live, h);
    }
  }

  /** Purging is safe after any run: in a healthy file system every subtree of the namespace may be
      purged. */
  lemma HealthyPurge(g: Geometry, d: Disk, live: map<int, seq<int>>, t: Tree, s: Tree)
    requires g.Ok() && Wf(g, d, live) && Healthy(g, d, live, t) && Within(s, t)
    ensures d.Shaped(g) && IsTree(FilesOf(g, d, live), s) && AllEnd(g, d, live, Inodes(s))
  {
    hide Wf, FilesOf, IsTree, Pristine, Ends;
    WithinTree(FilesOf(g, d, live), s, t);
    WfShaped(g, d, live);
    forall h | h in Inodes(s) && h in live
      ensures Ends(g, d, live[h])
    {
      PristineEnds(g, d, live, h);
    }
  }
}
