/** The request handlers: what each of the requests answers and does to the file system. */
module Handlers {
  import opened Bytes
  import opened Layout
  import opened Disk
  import opened Chains
  import opened Results
  import opened Image
  import opened Resize
  import opened Truncate
  import opened FileIo
  import opened Namespace
  import opened Directories
  import opened Paths
  import opened Drivers
  import opened Wire
  import opened Replies

  /** The die_fatal texts; for an internal error without the name of the place. */
  function Text(e: Error): (s: string)
    ensures 0 < |s| < 64
  {
    match e
    case NoSpace => "No space"
    case InvalidPosition => "Invalid position in file"
    case NotFile => "It is not file"
    case NotDirectory => "It is not directory"
    case NotFound => "No such file or directory"
    case NameTooLong => "Too long file name"
    case InvalidPath => "Invalid path"
    case Incompatible => "The filesystem is incompatible with your platfrom"
    case Internal => "Internal error"
  }

  function Ascii(s: string): (b: seq<byte>)
    ensures |b| == |s|
  {
    seq(|s|, i requires 0 <= i < |s| => (s[i] as int % 256) as byte)
  }

  /** The letters go out as they are. */
  lemma AsciiAt(s: string, i: nat)
    requires i < |s| && s[i] as int < 128
    ensures Ascii(s)[i] as int == s[i] as int
  {
    ByteRoundTrip(s[i] as int);
  }

  /** What a client is told, and that it can tell one error from another. */
  lemma ErrorsTold(a: Error, b: Error)
    ensures ReplyOf(Fatal(a)) == ReplyOf(Fatal(b)) <==> a == b
    ensures ReplyOf(Fatal(NotFound)) == Failed(Ascii("No such file or directory"))
    ensures ReplyOf(Fatal(InvalidPath)) == Failed(Ascii("Invalid path"))
    ensures ReplyOf(Fatal(NotFile)) == Failed(Ascii("It is not file"))
    ensures ReplyOf(Fatal(NotDirectory)) == Failed(Ascii("It is not directory"))
    ensures ReplyOf(Fatal(InvalidPosition)) == Failed(Ascii("Invalid position in file"))
    ensures ReplyOf(Fatal(NameTooLong)) == Failed(Ascii("Too long file name"))
    ensures ReplyOf(Fatal(NoSpace)) == Failed(Ascii("No space"))
  {
    hide Ascii;
    if a != b {
      TextsDiffer(a, b);
    }
  }

  lemma TextsDiffer(a: Error, b: Error)
    requires a != b
    ensures Ascii(Text(a)) != Ascii(Text(b))
  {
    hide Ascii;
    var s, t := Text(a), Text(b);
    if |s| == |t| {
      var i :| 0 <= i < |s| && s[i] != t[i] && s[i] as int < 128 && t[i] as int < 128;
      AsciiAt(s, i);
      AsciiAt(t, i);
    }
  }

  /** How a handler's end is answered: write_empty_error and the payload, or fsop_error. */
  function ReplyOf(r: Result<Payload>): Reply {
    match r
    case Ok(payload) => Done(payload)
    case Fatal(e) => Failed(Ascii(Text(e)))
  }

  /** fsop_Read answers with the slice of the named file. */
  method FsopRead(fs: FsDescriptors, path: seq<byte>, offset: nat, length: nat)
      returns (r: Result<Payload>, ghost h: int)
    requires fs.Valid() && Closed(fs.Files()) && fs.g.MetaPages() in fs.live && 0 !in path && length < HALF
    ensures fs.Valid()
    ensures r.Ok? ==> r.value.Data? && |r.value.bytes| <= length
    ensures match Located(fs.g.MetaPages(), fs.Files(), path)
      case Fatal(e) => r == Fatal(e)
      case Ok(inode) => inode == h && h in fs.Files()
    ensures Located(fs.g.MetaPages(), fs.Files(), path).Ok? ==>
              var content := fs.Files()[h].content;
              r == if 0 < length && |content| < offset then Fatal(InvalidPosition)
                   else Ok(Data(Slice(content, offset, length)))
  {
    hide View, Wf, FilesOf, Closed, Located, Slice;
    h := 0;
    var inode := Locate(fs, path);
    if inode.Fatal? {
      return Fatal(inode.error), h;
    }
    h := inode.value;
    var data := new byte[length];
    ghost var m, s := data[..], Slice(fs.Files()[inode.value].content, offset, length);
    var read := ReadFile(fs, inode.value, offset, length, data);
    if read.Fatal? {
      return Fatal(read.error), h;
    }
    assert Patch(m, 0, s)[..|s|] == s by { if |s| <= |m| { PatchSelf(m, 0, s); } }
    return Ok(Data(data[..read.value])), h;
  }

  /** fsop_Write overwrites and extends the named file. */
  method FsopWrite(fs: FsDescriptors, path: seq<byte>, offset: nat, data: seq<byte>)
      returns (r: Result<Payload>, ghost h: int)
    requires fs.Valid() && Closed(fs.Files()) && fs.g.MetaPages() in fs.live && 0 !in path && |data| < HALF
    modifies fs`live, fs.container
    ensures r.Ok? ==> r.value == Nothing
    ensures match Located(fs.g.MetaPages(), old(fs.Files()), path)
      case Fatal(e) => r == Fatal(e) && fs.Valid() && fs.Files() == old(fs.Files())
      case Ok(inode) => inode == h && h in old(fs.Files())
    ensures Located(fs.g.MetaPages(), old(fs.Files()), path).Ok? ==>
              var f := old(fs.Files())[h];
              var v := if IsFile(f) then WriteVerdict(fs.g, old(fs.D()), old(fs.live)[h], |f.content|, offset,
                                                      |data|) else Fatal(NotFile);
              && (if v.Fatal? then r == Fatal(v.error) else r == Ok(Nothing))
              && (v.Ok? ==> data == [] || offset <= |f.content|)
              && (v.Ok? ==> fs.Valid())
              && (v.Ok? ==> fs.Files() == old(fs.Files())[h := f.(content := Splice(f.content, offset, data))])
    ensures r.Fatal? && !Full(r.error) ==> fs.Valid() && fs.Files() == old(fs.Files())
    ensures fs.Valid() && (r.Ok? || !Full(r.error)) && old(Pristine(fs.g, fs.D(), fs.live)) ==>
              Pristine(fs.g, fs.D(), fs.live)
  {
    hide View, Wf, FilesOf, Closed, Located, Splice, WriteVerdict, WrittenChain, Pristine;
    h := 0;
    var inode := Locate(fs, path);
    if inode.Fatal? {
      return Fatal(inode.error), h;
    }
    h := inode.value;
    var written := WriteFile(fs, inode.value, offset, data);
    r := if written.Fatal? then Fatal(written.error) else Ok(Nothing);
  }

  /** fsop_ReadDir answers with the items of the named directory. */
  method FsopReadDir(fs: FsDescriptors, path: seq<byte>) returns (r: Result<Payload>, ghost h: int)
    requires fs.Valid() && Closed(fs.Files()) && fs.g.MetaPages() in fs.live && 0 !in path
    ensures fs.Valid()
    ensures r.Ok? ==> r.value.Listing? && |r.value.items| < LIMIT && AllOk(r.value.items)
    ensures match Located(fs.g.MetaPages(), fs.Files(), path)
      case Fatal(e) => r == Fatal(e)
      case Ok(inode) => inode == h && h in fs.Files()
    ensures Located(fs.g.MetaPages(), fs.Files(), path).Ok? ==>
              var f := fs.Files()[h];
              r == if DirectoryItems(f).Fatal? then Fatal(DirectoryItems(f).error)
                   else Ok(Listing(DirectoryItems(f).value))
  {
    hide View, Wf, FilesOf, Closed, Located, Items;
    h := 0;
    var inode := Locate(fs, path);
    if inode.Fatal? {
      return Fatal(inode.error), h;
    }
    h := inode.value;
    var content := ReadDirectory(fs, inode.value);
    if content.Fatal? {
      return Fatal(content.error), h;
    }
    ListingAnswers(fs.g, fs.D(), fs.live, inode.value);
    return Ok(Listing(content.value)), h;
  }

  lemma ListingAnswers(g: Geometry, d: Disk, live: map<int, seq<int>>, h: int)
    requires g.Ok() && Wf(g, d, live) && h in live && DirectoryItems(FilesOf(g, d, live)[h]).Ok?
    ensures var items := DirectoryItems(FilesOf(g, d, live)[h]).value; |items| < LIMIT && AllOk(items)
  {
    hide Wf, FilesOf, Items;
    FileSpace(g, d, live, h);
    BytesOfItems(FilesOf(g, d, live)[h].content);
  }

  /** trace_file_blocks lists the file's chain. After the last block it still follows that block's
      link, which may lead out of the container. */
  method TraceFileBlocks(fs: FsDescriptors, blockIndex: nat) returns (r: Result<seq<nat>>)
    requires fs.Valid() && blockIndex in fs.live
    ensures var c := fs.live[blockIndex];
      && c != [] && c[|c| - 1] in fs.D().blocks
      && (r.Fatal? <==> fs.g.blocksCount <= fs.D().Cont(fs.g, c[|c| - 1]))
      && (if r.Fatal? then r.error == Internal else r.value == c)
  {
    hide View, Wf, FsDescriptors.Word, Linked, GetBlocksRequired;
    ghost var g, d, c := fs.g, fs.D(), fs.live[blockIndex];
    WfFile(g, d, fs.live, blockIndex);
    LinkedBasics(g, d, c);
    var count := GetBlocksRequired(fs.g, fs.Word(blockIndex, SIZE_AT));
    var res: seq<nat> := [blockIndex];
    var inode := blockIndex;
    var i := 0;
    while i < count
      invariant i <= count == |c| && (i < count ==> inode == c[i])
      invariant |res| == (if i < count then i + 1 else i) && res == c[..|res|]
      invariant 0 < i == count ==> d.Cont(g, c[i - 1]) < g.blocksCount
    {
      var next := fs.Word(inode, 0);
      if i + 1 < count {
        LinkedNext(g, d, c, i);
        res := res + [next];
      }
      if next >= fs.g.blocksCount {
        return Fatal(Internal);
      }
      inode := next;
      i := i + 1;
    }
    return Ok(res);
  }

  /** The answer about one file. */
  method StatFile(fs: FsDescriptors, inode: nat) returns (r: Result<Payload>)
    requires fs.Valid() && inode in fs.live
    ensures r.Ok? ==> r.value.Info? && r.value.size < LIMIT && |r.value.blocks| < LIMIT
    ensures r.Ok? ==> forall i :: 0 <= i < |r.value.blocks| ==> 0 <= r.value.blocks[i] < LIMIT
    ensures var c := fs.live[inode];
      && c != [] && c[|c| - 1] in fs.D().blocks
      && (r.Fatal? <==> fs.g.blocksCount <= fs.D().Cont(fs.g, c[|c| - 1]))
      && (r.Ok? ==> r.value.size == |fs.Files()[inode].content| && r.value.blocks == c)
      && (r.Fatal? ==> r.error == Internal)
  {
    hide View, Wf, FilesOf, GetBlocksRequired, FsDescriptors.Word, Space, Linked;
    ChainWords(fs.g, fs.D(), fs.live, inode);
    FileSpace(fs.g, fs.D(), fs.live, inode);
    var size := fs.Word(inode, SIZE_AT);
    var blocks := TraceFileBlocks(fs, inode);
    if blocks.Fatal? {
      return Fatal(blocks.error);
    }
    return Ok(Info(size, blocks.value));
  }

  /** fsop_Stat answers with the size and the blocks of the named file. */
  method FsopStat(fs: FsDescriptors, path: seq<byte>) returns (r: Result<Payload>, ghost h: int)
    requires fs.Valid() && Closed(fs.Files()) && fs.g.MetaPages() in fs.live && 0 !in path
    ensures fs.Valid()
    ensures r.Ok? ==> Answers(Stat(path), Done(r.value))
    ensures match Located(fs.g.MetaPages(), fs.Files(), path)
      case Fatal(e) => r == Fatal(e)
      case Ok(inode) => inode == h && h in fs.Files()
    ensures Located(fs.g.MetaPages(), fs.Files(), path).Ok? ==>
              var c := fs.live[h];
              && c != [] && c[|c| - 1] in fs.D().blocks
              && (r.Fatal? <==> fs.g.blocksCount <= fs.D().Cont(fs.g, c[|c| - 1]))
              && if r.Fatal? then r.error == Internal
                 else r.value.Info? && r.value.size == |fs.Files()[h].content| && r.value.blocks == c
    ensures Located(fs.g.MetaPages(), fs.Files(), path).Ok? && fs.IsTerminated(h) ==> r.Ok?
    ensures Located(fs.g.MetaPages(), fs.Files(), path).Ok? && Pristine(fs.g, fs.D(), fs.live) ==> r.Ok?
  {
    hide View, Wf, FilesOf, Closed, Located, Pristine;
    h := 0;
    var inode := Locate(fs, path);
    if inode.Fatal? {
      return Fatal(inode.error), h;
    }
    h := inode.value;
    r := StatFile(fs, inode.value);
    if Pristine(fs.g, fs.D(), fs.live) { AllTerminated(fs.g, fs.D(), fs.live, h); }
  }

  lemma AllTerminated(g: Geometry, d: Disk, live: map<int, seq<int>>, h: int)
    requires g.Ok() && Wf(g, d, live) && Pristine(g, d, live) && h in live
    ensures d.Shaped(g) && Terminated(g, d, live[h])
  {
    hide Terminated, InOrder;
    WfShaped(g, d, live);
  }

  lemma ChainWords(g: Geometry, d: Disk, live: map<int, seq<int>>, h: int)
    requires g.Ok() && Wf(g, d, live) && h in live
    ensures d.Shaped(g) && h in d.blocks && g.IsData(h) && d.Size(g, h) < LIMIT
    ensures |live[h]| < LIMIT && forall i :: 0 <= i < |live[h]| ==> 0 <= live[h][i] < LIMIT
  {
    hide Wf;
    WfFile(g, d, live, h);
    LinkedBasics(g, d, live[h]);
    SizeBound(g, d, h, live[h]);
    SetSize(live[h]);
    assert forall b :: b in Set(live[h]) ==> g.IsData(b);
    SubsetSize(Set(live[h]), Below(g.blocksCount));
    CountBelowBase(g, g.blocksCount);
  }

  /** fsop_Create adds one empty item; when it dies is what MakeItem says. */
  method FsopCreate(fs: FsDescriptors, path: seq<byte>, flags: byte) returns (r: Result<Payload>, ghost inode: int)
    requires fs.Valid() && Closed(fs.Files()) && fs.g.MetaPages() in fs.live && 0 !in path
    requires ValidPath(path) ==> Tokens(path) != []
    modifies fs`live, fs.container
    ensures r.Ok? ==> r.value == Nothing && fs.Valid()
    ensures r.Ok? ==> MadeBy(fs.g.MetaPages(), old(fs.Files()), path, flags, inode, fs.Files())
    ensures r.Ok? ==>
              (Walk(fs.Files(), fs.g.MetaPages(), Tokens(path)) == Ok(inode)
               <==> Walk(old(fs.Files()), fs.g.MetaPages(), Tokens(path)) == Fatal(NotFound))
    ensures r.Fatal? && !Full(r.error) ==> fs.Valid()
    ensures r.Fatal? && !Full(r.error) ==>
              match ParentVerdict(fs.g.MetaPages(), old(fs.Files()), path)
              case Fatal(e) => r.error == e && fs.Files() == old(fs.Files())
              case Ok(parent) =>
                && parent.0 in old(fs.Files()) && !IsDirectory(old(fs.Files())[parent.0])
                && r.error == NotDirectory && Orphaned(old(fs.Files()), flags, inode, fs.Files())
    ensures fs.Valid() && (r.Ok? || !Full(r.error)) && old(Pristine(fs.g, fs.D(), fs.live)) ==>
              Pristine(fs.g, fs.D(), fs.live)
  {
    hide View, Wf, FilesOf, Pristine, Split, NoDouble, Closed, Walk, Created;
    hide AddVerdict, ParentVerdict, MadeBy, Survive;
    ghost var files := fs.Files();
    var made;
    ghost var dir;
    made, dir, inode := MakeItem(fs, path, flags);
    if made.Fatal? {
      if !Full(made.error) && ParentVerdict(fs.g.MetaPages(), files, path).Ok? {
        AddedNot(fs.g, old(fs.D()), old(fs.live), files, dir);
      }
      return Fatal(made.error), inode;
    }
    AddedOk(fs.g, old(fs.D()), old(fs.live), files, dir);
    MadeIs(fs.g.MetaPages(), files, path, flags, dir, made.value, fs.Files());
    MadeLocates(fs.g.MetaPages(), files, path, flags, inode, fs.Files());
    return Ok(Nothing), inode;
  }

  /** The payload tells what a reading request asks about the file its path names. */
  ghost predicate Tells(root: int, files: Files, live: map<int, seq<int>>, op: Op, payload: Payload) {
    && var at := Located(root, files, CString(op.path));
    && at.Ok? && at.value in files
    && match op
       case Read(_, offset, length) => payload == Data(Slice(files[at.value].content, offset, length))
       case Stat(_) =>
         && at.value in live && payload.Info?
         && payload.size == |files[at.value].content| && payload.blocks == live[at.value]
       case ReadDir(_) => payload.Listing? && DirectoryItems(files[at.value]) == Ok(payload.items)
       case _ => false
  }

  /** Why a request is refused, and what that makes of the files: nothing, but for a creation below a file
      that is no directory. */
  ghost predicate Refused(root: int, files: Files, op: Op, e: Error, files': Files) {
    var path := CString(op.path);
    if op.Create? then
      && (ValidPath(path) ==> Tokens(path) != [])
      && match ParentVerdict(root, files, path)
         case Fatal(x) => e == x && files' == files
         case Ok(parent) =>
           && parent.0 in files && !IsDirectory(files[parent.0])
           && e == NotDirectory && exists i :: Orphaned(files, op.flags, i, files')
    else
      && files' == files
      && match Located(root, files, path)
         case Fatal(x) => e == x
         case Ok(h) => h in files && Objects(files[h], op, e)
  }

  /** What a file can have against a request. */
  predicate Objects(f: File, op: Op, e: Error) {
    match op
    case Read(_, offset, length) => 0 < length && |f.content| < offset && e == InvalidPosition
    case Write(_, offset, data) =>
      if IsFile(f) then data != [] && |f.content| < offset && e == InvalidPosition else e == NotFile
    case Stat(_) => e == Internal
    case ReadDir(_) => DirectoryItems(f) == Fatal(e)
    case _ => false
  }

  /** A request that changes nothing, or finds blocks enough. */
  predicate Settled(op: Op, r: Result<Payload>) { r.Ok? || !Full(r.error) || op.Read? || op.Stat? || op.ReadDir? }

  /** What a settled request makes of the files, ending in r, and what it tells of them and of their blocks. */
  ghost predicate Served(root: int, files: Files, live: map<int, seq<int>>, op: Op, r: Result<Payload>,
                         files': Files) {
    if r.Fatal? then Refused(root, files, op, r.error, files')
    else match op
      case Write(_, offset, data) =>
        r.value == Nothing && WrittenBy(root, files, CString(op.path), offset, data, files')
      case Create(_, flags) =>
        r.value == Nothing && exists inode :: MadeBy(root, files, CString(op.path), flags, inode, files')
      case _ => files' == files && Tells(root, files, live, op, r.value)
  }

  /** process_operation, but for removals: every reply is one that answers the request, and says what was
      done or found. */
  method ProcessOperation(fs: FsDescriptors, op: Op) returns (reply: Reply, ghost r: Result<Payload>)
    requires fs.Valid() && Closed(fs.Files()) && fs.g.MetaPages() in fs.live && Servable(op)
    modifies fs`live, fs.container
    ensures reply == ReplyOf(r) && Answers(op, reply)
    ensures Settled(op, r) ==> fs.Valid()
    ensures Settled(op, r) ==> Served(fs.g.MetaPages(), old(fs.Files()), old(fs.live), op, r, fs.Files())
    ensures Settled(op, r) && old(Pristine(fs.g, fs.D(), fs.live)) ==> Pristine(fs.g, fs.D(), fs.live)
    ensures op.Stat? && old(Pristine(fs.g, fs.D(), fs.live)) ==>
              Located(fs.g.MetaPages(), old(fs.Files()), CString(op.path)).Ok? ==> r.Ok?
  {
    hide View, Wf, FilesOf, Closed, CString, Split, NoDouble, Walk, Slice, Splice, Ascii, Text, MadeBy, WrittenBy,
      Pristine, Located, ParentVerdict, Orphaned, DirectoryItems;
    CStringEnds(op.path);
    var path := CString(op.path);
    var end: Result<Payload>;
    ghost var h;
    match op {
      case Read(_, offset, length) => end, h := FsopRead(fs, path, offset, length);
      case Write(_, offset, data) => end, h := FsopWrite(fs, path, offset, data);
      case Create(_, flags) => end, h := FsopCreate(fs, path, flags);
      case Stat(_) => end, h := FsopStat(fs, path);
      case ReadDir(_) => end, h := FsopReadDir(fs, path);
    }
    if op.Write? && end.Ok? { WrittenIs(fs.g.MetaPages(), old(fs.Files()), path, op.offset, op.data, h, fs.Files()); }
    TextAnswers(op, end);
    reply, r := ReplyOf(end), end;
  }

  /** A request other than a removal, with a proper path and buffers that fit the address space. */
  ghost predicate Servable(op: Op) {
    && op.Ok() && !op.Remove? && 0 in op.path
    && (op.Read? ==> op.length < HALF) && (op.Write? ==> |op.data| < HALF)
    && (op.Create? && ValidPath(CString(op.path)) ==> Tokens(CString(op.path)) != [])
  }

  lemma WrittenIs(root: int, files: Files, path: seq<byte>, offset: nat, data: seq<byte>, h: int, files': Files)
    requires Located(root, files, path) == Ok(h) && h in files && IsFile(files[h])
    requires data == [] || offset <= |files[h].content|
    requires files' == files[h := var f := files[h]; f.(content := Splice(f.content, offset, data))]
    ensures WrittenBy(root, files, path, offset, data, files')
  {
    hide Walk, Splice, Split, NoDouble;
  }

  lemma TextAnswers(op: Op, r: Result<Payload>)
    ensures r.Fatal? ==> Answers(op, ReplyOf(r))
  {
  }
}
