/** Directory operations on the container. */
module Directories {
  import opened Bytes
  import opened Layout
  import opened Disk
  import opened Chains
  import opened Results
  import opened Image
  import opened Resize
  import opened Truncate
  import opened FileIo
  import opened Retrace
  import opened Namespace
  import opened Census

  /** read_directory returns the items and changes nothing. */
  method ReadDirectory(fs: FsDescriptors, dirBlockIndex: nat) returns (r: Result<seq<Item>>)
    requires fs.Valid() && dirBlockIndex in fs.live
    ensures r == DirectoryItems(fs.Files()[dirBlockIndex])
  {
    hide View, FsDescriptors.Word, FsDescriptors.Byte, Wf, FilesOf, Linked, Space, Items;
    WfFile(fs.g, fs.D(), fs.live, dirBlockIndex);
    FileSpace(fs.g, fs.D(), fs.live, dirBlockIndex);
    if fs.Byte(dirBlockIndex, FLAGS_AT) & FLG_DIRECTORY == 0 {
      return Fatal(NotDirectory);
    }
    var curDirSize := fs.Word(dirBlockIndex, SIZE_AT);
    if curDirSize % ITEM_SIZE != 0 {
      return Fatal(Internal);
    }
    ghost var content := fs.Files()[dirBlockIndex].content;
    var buffer := new byte[curDirSize];
    ghost var m := buffer[..];
    var read := ReadFile(fs, dirBlockIndex, 0, curDirSize, buffer);
    assert Slice(content, 0, curDirSize) == content;
    assert Patch(m, 0, content) == content;
    return Ok(Items(buffer[..]));
  }

  /** The first item of that name, found by comparing C strings. */
  method FindDirectoryItem(items: seq<Item>, name: seq<byte>) returns (r: Result<nat>)
    ensures r == if FindItem(items, name) < |items| then Ok(FindItem(items, name)) else Fatal(NotFound)
  {
    var i := 0;
    while i < |items|
      invariant i <= |items| && i <= FindItem(items, name)
    {
      if CString(items[i].name) == name {
        FindAt(items, name, i);
        return Ok(i);
      }
      FindBeyond(items, name, i);
      i := i + 1;
    }
    return Fatal(NotFound);
  }

  lemma FindAt(items: seq<Item>, name: seq<byte>, i: nat)
    requires i < |items| && i <= FindItem(items, name) && CString(items[i].name) == name
    ensures FindItem(items, name) == i
  {
    hide CString;
    FindItemFirst(items, name);
  }

  lemma FindBeyond(items: seq<Item>, name: seq<byte>, i: nat)
    requires i < |items| && i <= FindItem(items, name) && CString(items[i].name) != name
    ensures i < FindItem(items, name)
  {
    hide CString;
    FindItemFirst(items, name);
  }

  /** locate_path resolves a path by walking the namespace. */
  method LocatePath(fs: FsDescriptors, parts: seq<seq<byte>>) returns (r: Result<nat>)
    requires fs.Valid() && Closed(fs.Files()) && fs.g.MetaPages() in fs.live
    ensures fs.Valid()
    ensures r == Walk(fs.Files(), fs.g.MetaPages(), parts)
    ensures r.Ok? ==> r.value in fs.live
  {
    hide View, Wf, FilesOf, Items, FindItem, CString, Closed, Walk, DirectoryItems;
    ghost var files := fs.Files();
    var nextInode := fs.g.MetaPages();
    var i := 0;
    while i < |parts|
      invariant i <= |parts| && nextInode in fs.live
      invariant Walk(files, fs.g.MetaPages(), parts) == Walk(files, nextInode, parts[i..])
    {
      assert parts[i..][0] == parts[i] && parts[i..][1..] == parts[i + 1..];
      WalkStep(files, nextInode, parts[i..]);
      var root :- ReadDirectory(fs, nextInode);
      var itemIndex :- FindDirectoryItem(root, parts[i]);
      nextInode := root[itemIndex].inode;
      i := i + 1;
    }
    WalkDone(files, nextInode, parts[i..]);
    return Ok(nextInode);
  }

  lemma WalkDone(files: Files, h: int, parts: seq<seq<byte>>)
    requires |parts| == 0
    ensures Walk(files, h, parts) == Ok(h)
  {
  }

  lemma WalkStep(files: Files, h: int, parts: seq<seq<byte>>)
    requires Closed(files) && h in files && parts != []
    ensures DirectoryItems(files[h]).Fatal? ==> Walk(files, h, parts) == Fatal(DirectoryItems(files[h]).error)
    ensures DirectoryItems(files[h]).Ok? ==>
              var items := DirectoryItems(files[h]).value;
              var k := FindItem(items, parts[0]);
              if k == |items| then Walk(files, h, parts) == Fatal(NotFound)
              else items[k].inode in files && Walk(files, h, parts) == Walk(files, items[k].inode, parts[1..])
  {
    hide Items, FindItem, CString, DirectoryItems;
  }

  /** append_directory adds one item at the end. */
  method AppendDirectory(fs: FsDescriptors, dirBlockIndex: nat, item: Item) returns (r: Result<()>)
    requires fs.Valid() && dirBlockIndex in fs.live && item.Ok()
    modifies fs`live, fs.container
    ensures r.Fatal? <==> !IsDirectory(old(fs.Files())[dirBlockIndex]) ||
                          !Fits(fs.g, old(fs.D()), old(fs.live)[dirBlockIndex],
                                |old(fs.Files())[dirBlockIndex].content| + ITEM_SIZE)
    ensures r.Fatal? ==>
              r.error == if IsDirectory(old(fs.Files())[dirBlockIndex]) then FullError(fs.g) else NotDirectory
    ensures r.Ok? ==> fs.Valid() && fs.Files() == old(fs.Files())[dirBlockIndex :=
              var f := old(fs.Files())[dirBlockIndex]; f.(content := f.content + ItemBytes(item))]
    ensures r.Ok? ==> fs.live == old(fs.live)[dirBlockIndex :=
              AppendedChain(fs.g, old(fs.D()), old(fs.live)[dirBlockIndex], |old(fs.Files())[dirBlockIndex].content|)]
    ensures r.Ok? ==> Moved(fs.g, old(fs.D()), old(fs.live), fs.D(), dirBlockIndex, fs.live[dirBlockIndex])
    ensures r.Ok? && old(Pristine(fs.g, fs.D(), fs.live)) ==> Pristine(fs.g, fs.D(), fs.live)
    ensures r.Fatal? ==> fs.live == old(fs.live) && fs.SuperblockOk()
    ensures r.Fatal? ==> if r.error == NotDirectory then fs.D() == old(fs.D())
                         else Damaged(fs.g, old(fs.D()), fs.live, fs.D(), dirBlockIndex)
  {
    hide View, FsDescriptors.Byte, Wf, FilesOf, Linked, Space, ItemBytes, Pristine, Fits, WrittenChain, ResizedChain,
      Moved, Damaged;
    WfFile(fs.g, fs.D(), fs.live, dirBlockIndex);
    FileSpace(fs.g, fs.D(), fs.live, dirBlockIndex);
    if fs.Byte(dirBlockIndex, FLAGS_AT) & FLG_DIRECTORY == 0 {
      return Fatal(NotDirectory);
    }
    r := AppendFileUnchecked(fs, dirBlockIndex, ItemBytes(item));
  }

  ghost function AppendedChain(g: Geometry, d: Disk, c: seq<int>, size: nat): seq<int>
    requires g.Ok()
  {
    WrittenChain(g, d, c, size, size, ITEM_SIZE)
  }

  // ---- Removal ----

  function RemoveAt(items: seq<Item>, k: nat): seq<Item>
    requires k < |items|
  {
    items[..k] + items[k + 1..]
  }

  lemma RemoveAtIs(items: seq<Item>, k: nat, i: nat)
    requires k < |items|
    ensures |RemoveAt(items, k)| == |items| - 1
    ensures i < |items| - 1 ==> RemoveAt(items, k)[i] == if i < k then items[i] else items[i + 1]
  {
  }

  /** What the rewriting loop has put back after i items. */
  function Kept(items: seq<Item>, k: nat, i: nat): seq<Item>
    requires k < |items| && i <= |items|
  {
    if i <= k then items[..i] else items[..k] + items[k + 1..i]
  }

  lemma KeptNext(items: seq<Item>, k: nat, i: nat)
    requires k < |items| && i < |items|
    ensures Kept(items, k, i + 1) == if i == k then Kept(items, k, i) else Kept(items, k, i) + [items[i]]
    ensures Kept(items, k, |items|) == RemoveAt(items, k) && Kept(items, k, 0) == []
    ensures |Kept(items, k, i)| + (if i == k then 0 else 1) < |items|
  {
  }

  lemma KeptOk(items: seq<Item>, k: nat, i: nat)
    requires k < |items| && i <= |items| && AllOk(items)
    ensures AllOk(Kept(items, k, i)) && AllOk(RemoveAt(items, k))
    ensures i < |items| ==> items[i].Ok()
  {
  }

  /** The bytes of what was put back after i items. */
  function KeptBytes(items: seq<Item>, k: nat, i: nat): seq<byte>
    requires k < |items| && i <= |items| && AllOk(items)
  {
    KeptOk(items, k, i);
    AllBytes(Kept(items, k, i))
  }

  lemma KeptStep(items: seq<Item>, k: nat, i: nat)
    requires k < |items| && i < |items| && AllOk(items)
    ensures items[i].Ok()
    ensures KeptBytes(items, k, i + 1) ==
            if i == k then KeptBytes(items, k, i) else KeptBytes(items, k, i) + ItemBytes(items[i])
    ensures i != k ==> |KeptBytes(items, k, i)| + ITEM_SIZE <= |items| * ITEM_SIZE
  {
    hide Kept, AllBytes, ItemBytes;
    KeptNext(items, k, i);
    KeptOk(items, k, i);
    KeptOk(items, k, i + 1);
    if i != k { AllBytesSnoc(Kept(items, k, i), items[i]); }
  }

  lemma KeptEnds(items: seq<Item>, k: nat)
    requires k < |items| && AllOk(items)
    ensures KeptBytes(items, k, 0) == []
    ensures AllOk(RemoveAt(items, k)) && KeptBytes(items, k, |items|) == AllBytes(RemoveAt(items, k))
  {
    KeptNext(items, k, k);
    KeptOk(items, k, |items|);
  }

  /** Emptying a directory frees what putting some of its items back takes. */
  lemma PutBackFits(g: Geometry, d: Disk, live: map<int, seq<int>>, e: Disk, mid: map<int, seq<int>>, h: int, size: nat)
    requires g.Ok() && Wf(g, d, live) && Wf(g, e, mid) && h in live && h in mid && mid == live[h := mid[h]]
    requires g.BlocksRequired(size) <= |live[h]|
    ensures Fits(g, e, mid[h], size)
  {
    hide Wf, Total;
    UsedCount(g, d, live);
    UsedCount(g, e, mid);
    WfFile(g, d, live, h);
    TotalUpdate(live, h, mid[h], g.blocksCount);
    WfShaped(g, d, live);
  }

  /** What putting items back keeps besides contents: the other files' chains and what they end in, and
      on a disk without holes the way through the directory's old chain c. */
  ghost predicate Restoring(g: Geometry, d: Disk, live: map<int, seq<int>>, e: Disk, mid: map<int, seq<int>>, h: int,
                            pristine: bool)
    requires g.Ok() && d.Shaped(g) && e.Shaped(g) && h in live
  {
    && h in mid && mid == live[h := mid[h]]
    && (forall j :: j in live && j != h ==> Terminated(g, e, live[j]) == Terminated(g, d, live[j]))
    && (pristine ==> Retraced(g, e, live[h], mid[h], |d.used|))
  }

  lemma RestoringStart(g: Geometry, d: Disk, live: map<int, seq<int>>, e: Disk, h: int, newSize: nat)
    requires g.Ok() && Wf(g, d, live) && h in live && Resized(g, d, live, e, h, newSize)
    requires g.BlocksRequired(newSize) <= |live[h]|
    ensures d.Shaped(g) && e.Shaped(g)
    ensures Restoring(g, d, live, e, live[h := ResizedChain(g, d, live[h], newSize)], h, Pristine(g, d, live))
  {
    hide Wf, Resized, ResizedChain, Retraced, Pristine, Terminated, Moved;
    var k := ResizedChain(g, d, live[h], newSize);
    ResizedMoved(g, d, live, e, h, newSize);
    MovedOthers(g, d, live, e, h, k);
    if Pristine(g, d, live) { RetraceStart(g, d, live, e, h, newSize); }
  }

  lemma RestoringStep(g: Geometry, d: Disk, live: map<int, seq<int>>, e: Disk, mid: map<int, seq<int>>, f: Disk, h: int,
                      pristine: bool, newSize: nat)
    requires g.Ok() && d.Shaped(g) && h in live && Wf(g, e, mid) && e.Shaped(g)
    requires Restoring(g, d, live, e, mid, h, pristine)
    requires |mid[h]| <= g.BlocksRequired(newSize) <= |live[h]|
    requires Moved(g, e, mid, f, h, ResizedChain(g, e, mid[h], newSize))
    ensures f.Shaped(g)
    ensures Restoring(g, d, live, f, mid[h := ResizedChain(g, e, mid[h], newSize)], h, pristine)
  {
    hide Wf, ResizedChain, Retraced, Terminated, Moved;
    MovedOthers(g, e, mid, f, h, ResizedChain(g, e, mid[h], newSize));
    assert forall j :: j in live && j != h ==> j in mid && mid[j] == live[j];
    if pristine { RetraceStep(g, e, mid, f, h, live[h], |d.used|, newSize); }
  }

  /** Puts one item back into a directory that has shrunk; there is always room. */
  method PutBackItem(fs: FsDescriptors, dirBlockIndex: nat, item: Item, ghost content: seq<byte>,
                     ghost d: Disk, ghost live: map<int, seq<int>>, ghost files: Files, ghost pristine: bool)
    requires fs.Valid() && item.Ok()
    requires Wf(fs.g, d, live) && d.Shaped(fs.g) && dirBlockIndex in live && files == FilesOf(fs.g, d, live)
    requires Restoring(fs.g, d, live, fs.D(), fs.live, dirBlockIndex, pristine)
    requires IsDirectory(files[dirBlockIndex]) && |content| + ITEM_SIZE <= |files[dirBlockIndex].content|
    requires fs.Files() == files[dirBlockIndex := files[dirBlockIndex].(content := content)]
    modifies fs`live, fs.container
    ensures fs.Valid() && Restoring(fs.g, d, live, fs.D(), fs.live, dirBlockIndex, pristine)
    ensures fs.Files() == files[dirBlockIndex := files[dirBlockIndex].(content := content + ItemBytes(item))]
  {
    hide View, Wf, FilesOf, Items, ItemBytes, Fits, WrittenChain, Pristine, DirectoryItems, Moved, Retraced, Terminated,
      ResizedChain, AppendedChain, Damaged;
    ghost var g, h, e, mid, newSize := fs.g, dirBlockIndex, fs.D(), fs.live, |content| + ITEM_SIZE;
    FewerBlocks(g, d, live, h, newSize);
    PutBackFits(g, d, live, e, mid, h, newSize);
    MoreBlocks(g, e, mid, h, newSize);
    AppendedIs(g, e, mid[h], |content|);
    var appended := AppendDirectory(fs, dirBlockIndex, item);
    assert appended.Ok?;
    RestoringStep(g, d, live, e, mid, fs.D(), h, pristine, newSize);
  }

  lemma AppendedIs(g: Geometry, d: Disk, c: seq<int>, size: nat)
    requires g.Ok()
    ensures AppendedChain(g, d, c, size) == ResizedChain(g, d, c, size + ITEM_SIZE)
  {
    hide ResizedChain;
  }

  /** Puts all items but the k-th back into the emptied directory. */
  method PutBack(fs: FsDescriptors, dirBlockIndex: nat, items: seq<Item>, k: nat,
                 ghost d: Disk, ghost live: map<int, seq<int>>, ghost files: Files, ghost pristine: bool)
    requires fs.Valid() && k < |items| && AllOk(items)
    requires Wf(fs.g, d, live) && d.Shaped(fs.g) && dirBlockIndex in live && files == FilesOf(fs.g, d, live)
    requires DirectoryItems(files[dirBlockIndex]) == Ok(items)
    requires Restoring(fs.g, d, live, fs.D(), fs.live, dirBlockIndex, pristine)
    requires fs.Files() == files[dirBlockIndex := files[dirBlockIndex].(content := [])]
    modifies fs`live, fs.container
    ensures fs.Valid() && Restoring(fs.g, d, live, fs.D(), fs.live, dirBlockIndex, pristine)
    ensures fs.Files() == files[dirBlockIndex := fs.Files()[dirBlockIndex]]
    ensures fs.Files()[dirBlockIndex].flags == files[dirBlockIndex].flags
    ensures DirectoryItems(fs.Files()[dirBlockIndex]) == Ok(RemoveAt(items, k))
  {
    hide View, Wf, FilesOf, Items, ItemBytes, AllBytes, KeptBytes, RemoveAt, Pristine, DirectoryItems, IsDirectory,
      AllOk, Restoring;
    ghost var f := files[dirBlockIndex];
    ReadableDirectory(f);
    KeptEnds(items, k);
    RestoringHas(fs.g, d, live, fs.D(), fs.live, dirBlockIndex, pristine);
    var i := 0;
    while i < |items|
      invariant i <= |items| && fs.Valid() && dirBlockIndex in fs.live
      invariant Restoring(fs.g, d, live, fs.D(), fs.live, dirBlockIndex, pristine)
      invariant fs.Files() == files[dirBlockIndex := f.(content := KeptBytes(items, k, i))]
    {
      KeptStep(items, k, i);
      if i != k {
        PutBackItem(fs, dirBlockIndex, items[i], KeptBytes(items, k, i), d, live, files, pristine);
        RestoringHas(fs.g, d, live, fs.D(), fs.live, dirBlockIndex, pristine);
      }
      i := i + 1;
    }
    DirectoryOf(f, RemoveAt(items, k));
  }

  lemma RestoringHas(g: Geometry, d: Disk, live: map<int, seq<int>>, e: Disk, mid: map<int, seq<int>>, h: int,
                     pristine: bool)
    requires g.Ok() && d.Shaped(g) && e.Shaped(g) && h in live && Restoring(g, d, live, e, mid, h, pristine)
    ensures h in mid
  {
  }

  lemma RestoringKeys(g: Geometry, d: Disk, live: map<int, seq<int>>, e: Disk, mid: map<int, seq<int>>, h: int,
                      pristine: bool)
    requires g.Ok() && d.Shaped(g) && e.Shaped(g) && h in live && Restoring(g, d, live, e, mid, h, pristine)
    ensures h in mid && mid == live[h := mid[h]]
    ensures forall j :: j in live && j != h ==> Terminated(g, e, live[j]) == Terminated(g, d, live[j])
    ensures pristine ==> Ends(g, e, mid[h]) && (Terminated(g, e, mid[h]) <==> |mid[h]| == |live[h]|)
  {
    hide Retraced, Ends, Terminated;
    if pristine { RetraceEnds(g, e, live[h], mid[h], |d.used|); }
  }

  lemma MoreBlocks(g: Geometry, d: Disk, live: map<int, seq<int>>, h: int, size: nat)
    requires g.Ok() && Wf(g, d, live) && h in live && |FilesOf(g, d, live)[h].content| <= size
    ensures |live[h]| <= g.BlocksRequired(size)
  {
    hide Wf, FilesOf;
    WfFile(g, d, live, h);
    FileSpace(g, d, live, h);
    BlocksRequiredMonotone(g, d.Size(g, h), size);
  }

  lemma DirectoryOf(f: File, items: seq<Item>)
    requires IsDirectory(f) && AllOk(items)
    ensures DirectoryItems(f.(content := AllBytes(items))) == Ok(items)
  {
    ItemsOfBytes(items);
  }

  lemma ReadableDirectory(f: File)
    requires DirectoryItems(f).Ok?
    ensures IsDirectory(f) && |f.content| == |DirectoryItems(f).value| * ITEM_SIZE
  {
  }

  lemma FewerBlocks(g: Geometry, d: Disk, live: map<int, seq<int>>, h: int, size: nat)
    requires g.Ok() && Wf(g, d, live) && h in live && size <= |FilesOf(g, d, live)[h].content|
    ensures g.BlocksRequired(size) <= |live[h]|
  {
    hide Wf, FilesOf;
    WfFile(g, d, live, h);
    FileSpace(g, d, live, h);
    BlocksRequiredMonotone(g, size, d.Size(g, h));
  }

  /** Removal is list deletion: the first item of that name goes, the others keep their order, and
      no other file changes its content, its chain or what that ends in. What is returned is the item's
      index. Space never runs out, because emptying the directory freed at least what is put back. On a
      disk on which nothing was freed before, the directory's chain still leads to a 0, and ends in it
      exactly if it kept all its blocks. */
  method RemoveFromDirectory(fs: FsDescriptors, dirBlockIndex: nat, name: seq<byte>) returns (r: Result<nat>)
    requires fs.Valid() && dirBlockIndex in fs.live
    requires 1 < |fs.live[dirBlockIndex]| ==> Ends(fs.g, fs.D(), fs.live[dirBlockIndex])
    modifies fs`live, fs.container
    ensures r == match DirectoryItems(old(fs.Files())[dirBlockIndex])
              case Fatal(e) => Fatal(e)
              case Ok(items) => if FindItem(items, name) < |items| then Ok(FindItem(items, name)) else Fatal(NotFound)
    ensures r.Fatal? ==> fs.Valid() && fs.D() == old(fs.D()) && fs.live == old(fs.live)
    ensures r.Ok? ==> fs.Valid() && dirBlockIndex in fs.live
    ensures r.Ok? ==> fs.live == old(fs.live)[dirBlockIndex := fs.live[dirBlockIndex]]
    ensures r.Ok? ==> fs.Files() == old(fs.Files())[dirBlockIndex := fs.Files()[dirBlockIndex]]
    ensures r.Ok? ==> fs.Files()[dirBlockIndex].flags == old(fs.Files())[dirBlockIndex].flags
    ensures r.Ok? ==> var items := DirectoryItems(old(fs.Files())[dirBlockIndex]).value;
              DirectoryItems(fs.Files()[dirBlockIndex]) == Ok(RemoveAt(items, r.value))
    ensures r.Ok? ==> forall j :: j in fs.live && j != dirBlockIndex ==> fs.IsTerminated(j) == old(fs.IsTerminated(j))
    ensures r.Ok? && old(Pristine(fs.g, fs.D(), fs.live)) ==>
              && Ends(fs.g, fs.D(), fs.live[dirBlockIndex])
              && (fs.IsTerminated(dirBlockIndex) <==> |fs.live[dirBlockIndex]| == |old(fs.live)[dirBlockIndex]|)
  {
    hide View, Wf, FilesOf, Items, ItemBytes, AllBytes, Kept, RemoveAt, Fits, Resized, ResizedChain, FindItem, Pristine,
      Restoring, Ends, Terminated, Damaged;
    ghost var g, d, live, files := fs.g, fs.D(), fs.live, fs.Files();
    var root :- ReadDirectory(fs, dirBlockIndex);
    var itemIndex :- FindDirectoryItem(root, name);
    AlignedOk(files[dirBlockIndex]);
    BlocksRequiredIs(g, 0, 1);
    FewerBlocks(g, d, live, dirBlockIndex, 0);
    EmptyFits(g, d, live, dirBlockIndex);
    if 1 < |live[dirBlockIndex]| { EndsReaches(g, d, live[dirBlockIndex]); }
    var emptied := TruncateFile(fs, dirBlockIndex, 0);
    assert emptied.Ok?;
    RestoringStart(g, d, live, fs.D(), dirBlockIndex, 0);
    ghost var pristine := Pristine(g, d, live);
    PutBack(fs, dirBlockIndex, root, itemIndex, d, live, files, pristine);
    RestoringKeys(g, d, live, fs.D(), fs.live, dirBlockIndex, pristine);
    return Ok(itemIndex);
  }

  lemma AlignedOk(f: File)
    requires DirectoryItems(f).Ok?
    ensures AllOk(DirectoryItems(f).value)
  {
    BytesOfItems(f.content);
  }

  lemma EmptyFits(g: Geometry, d: Disk, live: map<int, seq<int>>, h: int)
    requires g.Ok() && Wf(g, d, live) && h in live && g.BlocksRequired(0) <= |live[h]|
    ensures Fits(g, d, live[h], 0)
  {
    hide Wf;
    WfShaped(g, d, live);
  }
}
