/** The command line's loops over the file system, and whole runs of its operations. */
module Drivers {
  import opened Bytes
  import opened Layout
  import opened Disk
  import opened Chains
  import opened Results
  import opened Image
  import opened Allocator
  import opened Resize
  import opened Truncate
  import opened FileIo
  import opened Namespace
  import opened Directories
  import opened Census
  import opened Paths

  function Flatten(chunks: seq<seq<byte>>): seq<byte> {
    if chunks == [] then [] else Flatten(chunks[..|chunks| - 1]) + chunks[|chunks| - 1]
  }

  /** Chunks one behind the other. */
  lemma {:induction false} FlattenConcat(a: seq<seq<byte>>, b: seq<seq<byte>>, c: seq<byte>)
    ensures Flatten(a + b) == Flatten(a) + Flatten(b)
    ensures Flatten([c]) == c
    decreases |b|
  {
    assert [c][..0] == [];
    if b == [] {
      assert a + b == a;
    } else {
      FlattenConcat(a, b[..|b| - 1], c);
      assert (a + b)[..|a + b| - 1] == a + b[..|b| - 1];
    }
  }

  lemma FlattenSnoc(chunks: seq<seq<byte>>, i: nat)
    requires i < |chunks|
    ensures Flatten(chunks[..i + 1]) == Flatten(chunks[..i]) + chunks[i]
  {
    assert chunks[..i + 1][..i] == chunks[..i];
  }

  lemma {:induction false} FlattenGrows(chunks: seq<seq<byte>>, i: nat)
    requires i <= |chunks|
    ensures |Flatten(chunks[..i])| <= |Flatten(chunks)|
    decreases |chunks|
  {
    if i == |chunks| {
      assert chunks[..i] == chunks;
    } else {
      var n := |chunks| - 1;
      FlattenGrows(chunks[..n], i);
      assert chunks[..n][..i] == chunks[..i];
    }
  }

  /** Two writes one behind the other are one write. */
  lemma SpliceSplice(content: seq<byte>, offset: nat, a: seq<byte>, b: seq<byte>)
    requires (a == [] && b == []) || offset <= |content|
    ensures b == [] || offset + |a| <= |Splice(content, offset, a)|
    ensures Splice(Splice(content, offset, a), offset + |a|, b) == Splice(content, offset, a + b)
  {
    if a == [] {
      assert a + b == b;
    } else if b == [] {
      assert a + b == a;
    } else {
      var s := content[..offset] + a;
      var t := content[Min(offset + |a|, |content|)..];
      assert Splice(content, offset, a) == s + t;
      assert (s + t)[..offset + |a|] == s;
      assert (s + t)[Min(offset + |a| + |b|, |s + t|)..] == content[Min(offset + |a| + |b|, |content|)..];
    }
  }

  lemma SpliceSize(content: seq<byte>, offset: nat, data: seq<byte>)
    requires data == [] || offset <= |content|
    ensures |Splice(content, offset, data)| ==
            if data == [] || offset + |data| <= |content| then |content| else offset + |data|
  {
  }

  /** Whether a write still fits does not depend on how much of the file is already grown. */
  lemma FitsSame(g: Geometry, d: Disk, live: map<int, seq<int>>, e: Disk, mid: map<int, seq<int>>, h: int, size: nat)
    requires g.Ok() && Wf(g, d, live) && Wf(g, e, mid) && h in live && h in mid && mid == live[h := mid[h]]
    ensures Fits(g, e, mid[h], size) <==> Fits(g, d, live[h], size)
  {
    hide Wf, Total;
    UsedCount(g, d, live);
    UsedCount(g, e, mid);
    WfFile(g, d, live, h);
    TotalUpdate(live, h, mid[h], g.blocksCount);
  }

  lemma FitsLess(g: Geometry, d: Disk, c: seq<int>, a: nat, b: nat)
    requires g.Ok() && a <= b && Fits(g, d, c, b)
    ensures Fits(g, d, c, a)
  {
    BlocksRequiredMonotone(g, a, b);
  }

  /** Where perform_write stands once the bytes of done are written: if there were any, they started
      inside the file, and the blocks for them were there. */
  ghost predicate Streaming(g: Geometry, d: Disk, c: seq<int>, size: nat, offset: nat, done: nat)
    requires g.Ok()
  {
    WriteVerdict(g, d, c, size, offset, done).Ok?
  }

  /** One chunk more: the verdict on it decides the verdict on all bytes so far. */
  lemma ChunkVerdict(g: Geometry, d: Disk, live: map<int, seq<int>>, e: Disk, mid: map<int, seq<int>>, h: int,
                     content: seq<byte>, offset: nat, a: seq<byte>, b: seq<byte>)
    requires g.Ok() && Wf(g, d, live) && Wf(g, e, mid) && h in live && h in mid && mid == live[h := mid[h]]
    requires Streaming(g, d, live[h], |content|, offset, |a|)
    ensures a == [] || offset <= |content|
    ensures WriteVerdict(g, e, mid[h], |Splice(content, offset, a)|, offset + |a|, |b|)
            == WriteVerdict(g, d, live[h], |content|, offset, |a + b|)
  {
    hide Wf, Fits;
    SpliceSize(content, offset, a);
    FitsSame(g, d, live, e, mid, h, offset + |a| + |b|);
  }

  /** A write that fails does not get better by being longer. */
  lemma LongerVerdict(g: Geometry, d: Disk, c: seq<int>, size: nat, offset: nat, a: nat, b: nat)
    requires g.Ok() && a <= b && WriteVerdict(g, d, c, size, offset, a).Fatal?
    ensures WriteVerdict(g, d, c, size, offset, b) == WriteVerdict(g, d, c, size, offset, a)
  {
    hide Fits;
    if size < offset + b && Fits(g, d, c, offset + b) { FitsLess(g, d, c, offset + a, offset + b); }
  }

  /** The errors of a write that are noticed before anything is changed. */
  ghost predicate Harmless(e: Error) { e == NotFile || e == InvalidPosition }

  /** One round of perform_write, behind the bytes of done. */
  method WriteChunk(fs: FsDescriptors, blockIndex: nat, position: nat, chunk: seq<byte>, ghost d: Disk,
                    ghost live: map<int, seq<int>>, ghost f: File, ghost offset: nat, ghost done: seq<byte>)
      returns (r: Result<()>)
    requires fs.Valid() && blockIndex in fs.live && |chunk| < HALF && position == offset + |done|
    requires Wf(fs.g, d, live) && blockIndex in live && fs.live == live[blockIndex := fs.live[blockIndex]]
    requires Streaming(fs.g, d, live[blockIndex], |f.content|, offset, |done|) && (done == [] || offset <= |f.content|)
    requires fs.Files()[blockIndex] == f.(content := Splice(f.content, offset, done))
    modifies fs`live, fs.container
    ensures r == if !IsFile(f) then Fatal(NotFile) else
                   WriteVerdict(fs.g, d, live[blockIndex], |f.content|, offset, |done + chunk|)
    ensures r.Ok? ==> Streaming(fs.g, d, live[blockIndex], |f.content|, offset, |done + chunk|) && IsFile(f)
    ensures r.Ok? ==> done + chunk == [] || offset <= |f.content|
    ensures r.Ok? ==> fs.Valid() && blockIndex in fs.live && fs.live == live[blockIndex := fs.live[blockIndex]]
    ensures r.Ok? ==> fs.Files() == old(fs.Files())[blockIndex :=
              f.(content := Splice(f.content, offset, done + chunk))]
    ensures r.Ok? && old(Pristine(fs.g, fs.D(), fs.live)) ==> Pristine(fs.g, fs.D(), fs.live)
    ensures r.Fatal? ==> fs.live == old(fs.live) && fs.SuperblockOk()
    ensures r.Fatal? ==> if Harmless(r.error) then fs.D() == old(fs.D())
                         else Survive(fs.g, old(fs.Files()), fs.D(), fs.live, blockIndex)
  {
    hide View, Wf, FilesOf, Pristine, WriteVerdict, WrittenChain, Splice, Linked, Space, Flatten, Fits, Streaming,
      Damaged, Survive;
    ghost var e, mid := fs.D(), fs.live;
    ChunkVerdict(fs.g, d, live, fs.D(), fs.live, blockIndex, f.content, offset, done, chunk);
    r := WriteFile(fs, blockIndex, position, chunk);
    if r.Fatal? && !Harmless(r.error) { DamagedSurvive(fs.g, e, mid, fs.D(), blockIndex); }
    if r.Ok? {
      StreamingNext(fs.g, d, live[blockIndex], f.content, offset, done + chunk);
      SpliceSplice(f.content, offset, done, chunk);
    }
  }

  /** perform_write: however the input is cut into chunks, the loop ends with the verdict of one write
      of all of it, and with its files when it succeeds. When it dies for want of blocks, in whatever
      chunk, the file is broken and the others are intact; for any other reason, nothing changed. */
  method PerformWrite(fs: FsDescriptors, blockIndex: nat, offset: nat, chunks: seq<seq<byte>>) returns (r: Result<()>)
    requires fs.Valid() && blockIndex in fs.live && chunks != [] && forall i :: 0 <= i < |chunks| ==> |chunks[i]| < HALF
    modifies fs`live, fs.container
    ensures r == if !IsFile(old(fs.Files())[blockIndex]) then Fatal(NotFile) else
                   WriteVerdict(fs.g, old(fs.D()), old(fs.live)[blockIndex],
                                |old(fs.Files())[blockIndex].content|, offset, |Flatten(chunks)|)
    ensures r.Ok? ==> Flatten(chunks) == [] || offset <= |old(fs.Files())[blockIndex].content|
    ensures r.Ok? ==> fs.Valid() && fs.Files() == old(fs.Files())[blockIndex :=
              var f := old(fs.Files())[blockIndex]; f.(content := Splice(f.content, offset, Flatten(chunks)))]
    ensures r.Fatal? ==> fs.SuperblockOk()
    ensures r.Fatal? && Harmless(r.error) ==> fs.Valid() && fs.Files() == old(fs.Files())
    ensures r.Fatal? && !Harmless(r.error) ==> Survive(fs.g, old(fs.Files()), fs.D(), fs.live, blockIndex)
    ensures fs.Valid() && (r.Ok? || Harmless(r.error)) && old(Pristine(fs.g, fs.D(), fs.live)) ==>
              Pristine(fs.g, fs.D(), fs.live)
  {
    hide View, Wf, FilesOf, Pristine, WriteVerdict, WrittenChain, Splice, Linked, Space, Flatten, Fits, Streaming,
      Survive;
    ghost var g, h, d, live, files := fs.g, blockIndex, fs.D(), fs.live, fs.Files();
    ghost var f, done := files[h], [];
    StreamingStart(g, d, live[h], f.content, offset);
    FlattenNothing(chunks);
    var position, i := offset, 0;
    while i < |chunks|
      invariant i <= |chunks| && done == Flatten(chunks[..i]) && position == offset + |done|
      invariant fs.Valid() && h in fs.live && fs.live == live[h := fs.live[h]]
      invariant Streaming(g, d, live[h], |f.content|, offset, |done|) && (done == [] || offset <= |f.content|)
      invariant fs.Files() == files[h := f.(content := Splice(f.content, offset, done))]
      invariant 0 < i ==> IsFile(f)
      invariant i == 0 ==> done == []
      invariant Pristine(g, d, live) ==> Pristine(g, fs.D(), fs.live)
    {
      FlattenSnoc(chunks, i);
      var written := WriteChunk(fs, blockIndex, position, chunks[i], d, live, f, offset, done);
      if written.Fatal? {
        FlattenGrows(chunks, i + 1);
        LongerFailure(g, d, live[h], |f.content|, offset, |done + chunks[i]|, |Flatten(chunks)|, written, f);
        EarlyFailure(g, d, live[h], f, offset, done, |done + chunks[i]|, i, written);
        if !Harmless(written.error) {
          SurviveOther(g, files[h := f.(content := Splice(f.content, offset, done))], fs.D(), fs.live, h, f);
          assert files[h := f.(content := Splice(f.content, offset, done))][h := f] == files;
        }
        return written;
      }
      done := done + chunks[i];
      position := position + |chunks[i]|;
      i := i + 1;
    }
    assert chunks[..i] == chunks;
    StreamingDone(g, d, live[h], |f.content|, offset, |done|);
    return Ok(());
  }

  /** A harmless error comes before the first byte is written. */
  lemma EarlyFailure(g: Geometry, d: Disk, c: seq<int>, f: File, offset: nat, done: seq<byte>, n: nat, i: nat,
                     r: Result<()>)
    requires g.Ok() && r.Fatal? && (done == [] || offset <= |f.content|) && (0 < i ==> IsFile(f))
    requires i == 0 ==> done == []
    requires r == if !IsFile(f) then Fatal(NotFile) else WriteVerdict(g, d, c, |f.content|, offset, n)
    ensures Harmless(r.error) ==> done == [] && f.(content := Splice(f.content, offset, done)) == f
  {
    hide Fits;
  }

  lemma StreamingStart(g: Geometry, d: Disk, c: seq<int>, content: seq<byte>, offset: nat)
    requires g.Ok()
    ensures Streaming(g, d, c, |content|, offset, 0) && Splice(content, offset, []) == content
  {
  }

  lemma FlattenNothing(chunks: seq<seq<byte>>)
    ensures Flatten(chunks[..0]) == []
  {
  }

  lemma StreamingNext(g: Geometry, d: Disk, c: seq<int>, content: seq<byte>, offset: nat, data: seq<byte>)
    requires g.Ok() && WriteVerdict(g, d, c, |content|, offset, |data|).Ok?
    ensures Streaming(g, d, c, |content|, offset, |data|) && (data == [] || offset <= |content|)
  {
  }

  lemma StreamingDone(g: Geometry, d: Disk, c: seq<int>, size: nat, offset: nat, n: nat)
    requires g.Ok() && Streaming(g, d, c, size, offset, n)
    ensures WriteVerdict(g, d, c, size, offset, n) == Ok(())
  {
  }

  lemma LongerFailure(g: Geometry, d: Disk, c: seq<int>, size: nat, offset: nat, a: nat, b: nat, r: Result<()>, f: File)
    requires g.Ok() && a <= b && r.Fatal?
    requires r == if !IsFile(f) then Fatal(NotFile) else WriteVerdict(g, d, c, size, offset, a)
    ensures r == if !IsFile(f) then Fatal(NotFile) else WriteVerdict(g, d, c, size, offset, b)
  {
    hide WriteVerdict, IsFile;
    if IsFile(f) { LongerVerdict(g, d, c, size, offset, a, b); }
  }

  /** The cat loop: whatever the buffer size, it ends and prints exactly the file's bytes. */
  method Cat(fs: FsDescriptors, blockIndex: nat, bufSize: nat) returns (r: Result<seq<byte>>)
    requires fs.Valid() && blockIndex in fs.live && 0 < bufSize < HALF
    ensures r == Ok(fs.Files()[blockIndex].content)
  {
    hide View, Wf, FilesOf, Slice, Patch;
    ghost var content := fs.Files()[blockIndex].content;
    var buffer := new byte[bufSize];
    var output, totalReadBytes := [], 0;
    var more := true;
    while more
      invariant fs.Valid() && blockIndex in fs.live && fs.Files()[blockIndex].content == content
      invariant totalReadBytes == |output| <= |content| && output == content[..totalReadBytes]
      invariant !more ==> totalReadBytes == |content|
      decreases |content| - totalReadBytes, more
    {
      SliceAt(content, totalReadBytes, bufSize);
      var read := ReadFile(fs, blockIndex, totalReadBytes, bufSize, buffer);
      assert read.Ok?;
      var readBytes := read.value;
      if readBytes == 0 {
        more := false;
      } else {
        assert buffer[..][..readBytes] == buffer[..readBytes];
        output := output + buffer[..readBytes];
        totalReadBytes := totalReadBytes + readBytes;
      }
    }
    assert content[..totalReadBytes] == content;
    return Ok(output);
  }

  lemma SliceAt(content: seq<byte>, offset: nat, length: nat)
    requires offset <= |content| && 0 < length
    ensures var s := Slice(content, offset, length);
      && |s| == Min(length, |content| - offset) && content[..offset] + s == content[..offset + |s|]
      && forall m: seq<byte> :: length <= |m| ==> Patch(m, 0, s)[..|s|] == s
  {
  }

  // ---- Creating an item by path ----

  /** The inode a path names. */
  function Located(root: int, files: Files, path: seq<byte>): Result<int> {
    if ValidPath(path) then Walk(files, root, Tokens(path)) else Fatal(InvalidPath)
  }

  method Locate(fs: FsDescriptors, path: seq<byte>) returns (r: Result<nat>)
    requires fs.Valid() && Closed(fs.Files()) && fs.g.MetaPages() in fs.live && 0 !in path
    ensures fs.Valid()
    ensures r == Located(fs.g.MetaPages(), fs.Files(), path)
    ensures r.Ok? ==> r.value in fs.live
  {
    hide View, Wf, FilesOf, Split, NoDouble, Closed, Walk;
    var split := SplitPath(path);
    if split.Fatal? {
      return Fatal(split.error);
    }
    r := LocatePath(fs, PartsOf(split.value));
  }

  /** The parent directory of a path and the path's last component. */
  function ParentVerdict(root: int, files: Files, path: seq<byte>): (r: Result<(int, seq<byte>)>)
    requires ValidPath(path) ==> Tokens(path) != []
  {
    if !ValidPath(path) then Fatal(InvalidPath) else
      var parts, last := Tokens(path), |Tokens(path)| - 1;
      match Walk(files, root, parts[..last])
      case Fatal(e) => Fatal(e)
      case Ok(dir) => if |parts[last]| >= NAME_SIZE then Fatal(NameTooLong) else Ok((dir, parts[last]))
  }

  /** How the creation in directory dir ends, once its name is found acceptable. */
  ghost function AddVerdict(g: Geometry, d: Disk, live: map<int, seq<int>>, files: Files, dir: int): Result<()>
    requires g.Ok() && dir in files && files.Keys == live.Keys
  {
    if |d.used| == g.blocksCount then Fatal(FullError(g))
    else if !IsDirectory(files[dir]) then Fatal(NotDirectory)
    else if |d.used| + 1 + g.BlocksRequired(|files[dir].content| + ITEM_SIZE) > g.blocksCount + |live[dir]|
    then Fatal(FullError(g))
    else Ok(())
  }

  lemma OneMoreUsed(g: Geometry, d: Disk, live: map<int, seq<int>>, e: Disk, mid: map<int, seq<int>>, b: int)
    requires g.Ok() && Wf(g, d, live) && Wf(g, e, mid) && b !in live && mid == live[b := [b]]
    ensures |e.used| == |d.used| + 1
  {
    hide Wf, Total;
    UsedCount(g, d, live);
    UsedCount(g, e, mid);
    WfFile(g, e, mid, b);
    TotalUpdate(live, b, [b], g.blocksCount);
  }

  /** The first half of make_item: split the path, find the parent, look at the name. */
  method ResolveParent(fs: FsDescriptors, path: seq<byte>) returns (r: Result<(nat, seq<byte>)>)
    requires fs.Valid() && Closed(fs.Files()) && fs.g.MetaPages() in fs.live && 0 !in path
    requires ValidPath(path) ==> Tokens(path) != []
    ensures fs.Valid()
    ensures var v := ParentVerdict(fs.g.MetaPages(), fs.Files(), path);
      if r.Ok? then v == Ok((r.value.0, r.value.1)) else v == Fatal(r.error)
    ensures r.Ok? ==> r.value.0 in fs.live && |r.value.1| < NAME_SIZE && 0 !in r.value.1
    ensures ValidPath(path) ==>
              var parts, last := Tokens(path), |Tokens(path)| - 1;
              Walk(fs.Files(), fs.g.MetaPages(), parts[..last]).Ok? ==>
                r == if 256 <= |parts[last]| then Fatal(NameTooLong)
                     else Ok((Walk(fs.Files(), fs.g.MetaPages(), parts[..last]).value, parts[last]))
  {
    hide View, Wf, FilesOf, Split, NoDouble, Closed, Walk;
    var split := SplitPath(path);
    if split.Fatal? {
      return Fatal(split.error);
    }
    SplitBytesOf(path);
    var parts, last := PartsOf(split.value), split.value.count - 1;
    var located := LocatePath(fs, parts[..last]);
    if located.Fatal? {
      return Fatal(located.error);
    }
    if |parts[last]| >= NAME_SIZE {
      return Fatal(NameTooLong);
    }
    return Ok((located.value, parts[last]));
  }

  /** The second half: an empty file on the least free block, and an item for it at the end of the
      parent. When the parent is no directory the empty file is there without an item; when there is no
      space for the item, the parent is broken as well, and all else is intact. */
  method AddItem(fs: FsDescriptors, dirInode: nat, name: seq<byte>, flags: byte)
      returns (r: Result<nat>, ghost inode: int)
    requires fs.Valid() && dirInode in fs.live && |name| < NAME_SIZE && 0 !in name
    modifies fs`live, fs.container
    ensures var v := AddVerdict(fs.g, old(fs.D()), old(fs.live), old(fs.Files()), dirInode);
      if r.Ok? then v == Ok(()) else v == Fatal(r.error)
    ensures r.Ok? ==> r.value == inode && fs.Valid()
    ensures |old(fs.D()).used| < fs.g.blocksCount ==> 0 <= inode < LIMIT && inode !in old(fs.Files())
    ensures |old(fs.D()).used| < fs.g.blocksCount ==> inode == FirstFree(old(fs.D()).used, 0, fs.g.blocksCount)
    ensures r.Ok? ==> fs.Files() == Created(old(fs.Files()), dirInode, r.value, flags, name)
    ensures r.Ok? ==> fs.live == AddedLive(fs.g, old(fs.D()), old(fs.live), dirInode, r.value,
                                           |old(fs.Files())[dirInode].content|)
    ensures r.Fatal? && |old(fs.D()).used| == fs.g.blocksCount ==> fs.D() == old(fs.D()) && fs.live == old(fs.live)
    ensures r.Fatal? && |old(fs.D()).used| < fs.g.blocksCount ==>
              var files := old(fs.Files())[inode := File(flags, [])];
              if r.error == NotDirectory then fs.Valid() && fs.Files() == files
              else Survive(fs.g, files, fs.D(), fs.live, dirInode)
    ensures fs.Valid() && (r.Ok? || r.error == NotDirectory) && old(Pristine(fs.g, fs.D(), fs.live)) ==>
              Pristine(fs.g, fs.D(), fs.live)
  {
    hide View, Wf, FilesOf, Pristine, ItemBytes, PaddedName, AppendedChain, Damaged, Survive, FirstFree, ResizedChain,
      Moved;
    ghost var g, d, live, size := fs.g, fs.D(), fs.live, |fs.Files()[dirInode].content|;
    inode := 0;
    var created := InitNewFile(fs, flags);
    if created.Fatal? {
      return created, inode;
    }
    inode := created.value;
    OneMoreUsed(g, d, live, fs.D(), fs.live, created.value);
    InodeBound(g, fs.D(), fs.live, created.value);
    AddedChain(g, d, live, fs.D(), dirInode, created.value, size);
    ghost var e, mid := fs.D(), fs.live;
    var appended := AppendDirectory(fs, dirInode, Item(created.value, PaddedName(name)));
    if appended.Fatal? {
      if appended.error != NotDirectory { DamagedSurvive(g, e, mid, fs.D(), dirInode); }
      return Fatal(appended.error), inode;
    }
    return created, inode;
  }

  /** The chains after a creation. */
  ghost function AddedLive(g: Geometry, d: Disk, live: map<int, seq<int>>, dir: int, inode: int, size: nat):
      map<int, seq<int>>
    requires g.Ok() && dir in live
  {
    live[inode := [inode]][dir := ResizedChain(g, d.(used := d.used + {inode}), live[dir], size + ITEM_SIZE)]
  }

  lemma AddedChain(g: Geometry, d: Disk, live: map<int, seq<int>>, e: Disk, dir: int, inode: int, size: nat)
    requires g.Ok() && dir in live && inode != dir && e.used == d.used + {inode}
    ensures live[inode := [inode]][dir := AppendedChain(g, e, live[inode := [inode]][dir], size)] ==
            AddedLive(g, d, live, dir, inode, size)
  {
    hide Fresh;
    AppendedIs(g, e, live[dir], size);
  }

  /** make_item, also the core of the create request: it dies for a bad path, an unresolved parent, a
      long name, a parent that is no directory, or want of blocks, and otherwise adds one item. Only the
      last two change anything, as AddItem says. */
  method MakeItem(fs: FsDescriptors, path: seq<byte>, flags: byte)
      returns (r: Result<nat>, ghost dir: int, ghost inode: int)
    requires fs.Valid() && Closed(fs.Files()) && fs.g.MetaPages() in fs.live && 0 !in path
    requires ValidPath(path) ==> Tokens(path) != []
    modifies fs`live, fs.container
    ensures match ParentVerdict(fs.g.MetaPages(), old(fs.Files()), path)
      case Fatal(e) => r == Fatal(e) && fs.D() == old(fs.D()) && fs.live == old(fs.live)
      case Ok(parent) => parent.0 == dir && dir in old(fs.Files()) && |parent.1| < NAME_SIZE
    ensures ParentVerdict(fs.g.MetaPages(), old(fs.Files()), path).Ok? ==>
              var v := AddVerdict(fs.g, old(fs.D()), old(fs.live), old(fs.Files()), dir);
              if r.Ok? then v == Ok(()) else v == Fatal(r.error)
    ensures r.Ok? ==> ValidPath(path) && r.value == inode
    ensures r.Ok? ==> fs.Valid() && CanName(old(fs.Files()), r.value, Tokens(path)[|Tokens(path)| - 1])
    ensures r.Ok? ==> var name := Tokens(path)[|Tokens(path)| - 1];
              fs.Files() == Created(old(fs.Files()), dir, r.value, flags, name)
    ensures r.Fatal? && ParentVerdict(fs.g.MetaPages(), old(fs.Files()), path).Ok? ==>
              if |old(fs.D()).used| == fs.g.blocksCount then fs.D() == old(fs.D()) && fs.live == old(fs.live)
              else 0 <= inode && inode !in old(fs.Files()) &&
                   var files := old(fs.Files())[inode := File(flags, [])];
                   if r.error == NotDirectory then fs.Valid() && fs.Files() == files
                   else Survive(fs.g, files, fs.D(), fs.live, dir)
    ensures fs.Valid() && (r.Ok? || !Full(r.error)) && old(Pristine(fs.g, fs.D(), fs.live)) ==>
              Pristine(fs.g, fs.D(), fs.live)
  {
    hide View, Wf, FilesOf, Pristine, Split, NoDouble, Closed, Walk, Created, Survive, FirstFree, AddedLive;
    dir, inode := 0, 0;
    var resolved := ResolveParent(fs, path);
    if resolved.Fatal? {
      return Fatal(resolved.error), dir, inode;
    }
    dir := resolved.value.0;
    UsedAtMost(fs.g, fs.D(), fs.live);
    r, inode := AddItem(fs, resolved.value.0, resolved.value.1, flags);
  }

  /** The errors that want of blocks can be reported as. */
  predicate Full(e: Error) { e == NoSpace || e == Internal }

  lemma UsedAtMost(g: Geometry, d: Disk, live: map<int, seq<int>>)
    requires g.Ok() && Wf(g, d, live)
    ensures |d.used| <= g.blocksCount
  {
    hide Wf;
    WfShaped(g, d, live);
    SubsetSize(d.used, Below(g.blocksCount));
  }

  ghost predicate CanName(files: Files, inode: nat, name: seq<byte>) {
    inode !in files && inode < LIMIT && |name| < NAME_SIZE && 0 !in name
  }

  // ---- What a command did ----

  /** files' is files with a new empty item, on inode, at path. */
  ghost predicate MadeBy(root: int, files: Files, path: seq<byte>, flags: byte, inode: int, files': Files) {
    && ValidPath(path) && Tokens(path) != []
    && var parts, last := Tokens(path), |Tokens(path)| - 1;
    && var dir := Walk(files, root, parts[..last]);
    && dir.Ok? && dir.value in files && IsDirectory(files[dir.value])
    && 0 <= inode && inode !in files && |parts[last]| < NAME_SIZE
    && files' == Created(files, dir.value, inode, flags, parts[last])
  }

  /** files' is files and one empty file that no directory knows. */
  ghost predicate Orphaned(files: Files, flags: byte, inode: int, files': Files) {
    inode !in files && files' == files[inode := File(flags, [])]
  }

  /** files' is files with data put into the file at path. */
  ghost predicate WrittenBy(root: int, files: Files, path: seq<byte>, offset: nat, data: seq<byte>, files': Files) {
    && ValidPath(path)
    && var at := Walk(files, root, Tokens(path));
    && at.Ok? && at.value in files && IsFile(files[at.value])
    && (data == [] || offset <= |files[at.value].content|)
    && files' == files[at.value := var f := files[at.value]; f.(content := Splice(f.content, offset, data))]
  }

  lemma MadeIs(root: int, files: Files, path: seq<byte>, flags: byte, dir: int, inode: nat, files': Files)
    requires ValidPath(path) && Tokens(path) != []
    requires match ParentVerdict(root, files, path)
      case Fatal(e) => false
      case Ok(parent) => parent.0 == dir && dir in files && |parent.1| < NAME_SIZE
    requires IsDirectory(files[dir]) && CanName(files, inode, Tokens(path)[|Tokens(path)| - 1])
    requires files' == Created(files, dir, inode, flags, Tokens(path)[|Tokens(path)| - 1])
    ensures MadeBy(root, files, path, flags, inode, files')
  {
    hide Split, NoDouble, Walk, Created;
  }

  /** Only a parent that is no directory makes a creation die for another reason than want of blocks. */
  lemma AddedNot(g: Geometry, d: Disk, live: map<int, seq<int>>, files: Files, dir: int)
    requires g.Ok() && dir in files && files.Keys == live.Keys && AddVerdict(g, d, live, files, dir).Fatal?
    requires !Full(AddVerdict(g, d, live, files, dir).error)
    ensures |d.used| != g.blocksCount && !IsDirectory(files[dir])
    ensures AddVerdict(g, d, live, files, dir) == Fatal(NotDirectory)
  {
  }

  /** The new path resolves to the new inode if and only if it named nothing before. */
  lemma MadeLocates(root: int, files: Files, path: seq<byte>, flags: byte, inode: int, files': Files)
    requires MadeBy(root, files, path, flags, inode, files') && Closed(files) && root in files
    requires inode < LIMIT && 0 !in path
    ensures ValidPath(path)
    ensures Walk(files', root, Tokens(path)) == Ok(inode) <==> Walk(files, root, Tokens(path)) == Fatal(NotFound)
  {
    hide Split, NoDouble, Created, Closed, Walk, DirectoryItems;
    var parts, last := Tokens(path), |Tokens(path)| - 1;
    SplitBytesOf(path);
    assert parts == parts[..last] + [parts[last]];
    CreateThenWalk(files, Walk(files, root, parts[..last]).value, inode, flags, parts[last], root, parts[..last]);
  }

  lemma AddedOk(g: Geometry, d: Disk, live: map<int, seq<int>>, files: Files, dir: int)
    requires g.Ok() && dir in files && files.Keys == live.Keys && AddVerdict(g, d, live, files, dir).Ok?
    ensures IsDirectory(files[dir])
  {
  }

  lemma InodeBound(g: Geometry, d: Disk, live: map<int, seq<int>>, b: int)
    requires g.Ok() && Wf(g, d, live) && b in live
    ensures 0 <= b < LIMIT
  {
    hide Wf;
    WfFile(g, d, live, b);
    CountBelowBase(g, g.blocksCount);
  }
}
