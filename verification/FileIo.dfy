/** Reading, writing and creating files. */
module FileIo {
  import opened Bytes
  import opened Layout
  import opened Disk
  import opened Chains
  import opened Results
  import opened Image
  import opened Allocator
  import opened Resize
  import opened Truncate

  lemma SeekNext(g: Geometry, d: Disk, c: seq<int>, i: nat, rest: nat)
    requires g.Ok() && d.Shaped(g) && Linked(g, d, c) && i < |c|
    requires g.Room(i) < rest && g.Capacity(i) + rest <= g.Capacity(|c|)
    ensures i + 1 < |c| && c[i] in d.blocks && d.Cont(g, c[i]) == c[i + 1] && c[i + 1] in d.blocks
    ensures g.Capacity(i + 1) == g.Capacity(i) + g.Room(i)
  {
    if i + 1 < |c| { LinkedNext(g, d, c, i); }
  }

  /** The position map in action: the block that holds offset, the size of its header and the
      offset inside its payload. At a block's end it stays on that block, with nothing left in it. */
  method Seek(fs: FsDescriptors, blockIndex: nat, offset: nat, ghost c: seq<int>)
      returns (b: nat, headerSize: nat, rest: nat, ghost i: nat)
    requires fs.Mapped() && Linked(fs.g, fs.D(), c) && c[0] == blockIndex && offset <= fs.g.Capacity(|c|)
    ensures i < |c| && b == c[i] && headerSize == fs.g.Hdr(i)
    ensures rest <= fs.g.Room(i) && fs.g.Capacity(i) + rest == offset
    ensures headerSize + rest < fs.g.blockSize ==>
              var p := Position(fs.g, offset);
              p.0 == i && p.0 < |c| && b == c[p.0] && headerSize + rest == p.1
  {
    hide View, FsDescriptors.Word, Linked, Position;
    LinkedBasics(fs.g, fs.D(), c);
    var firstBlockSize := fs.g.blockSize - fs.g.mainSize;
    var commonBlockSize := fs.g.blockSize - HEADER;
    b, headerSize, rest, i := blockIndex, fs.g.mainSize, offset, 0;
    if rest > firstBlockSize {
      SeekNext(fs.g, fs.D(), c, 0, rest);
      rest := rest - firstBlockSize;
      b := fs.Word(b, 0);
      headerSize := HEADER;
      i := 1;
    }
    while rest > commonBlockSize
      invariant i < |c| && b == c[i] && headerSize == fs.g.Hdr(i)
      invariant fs.g.Capacity(i) + rest == offset && (i == 0 ==> rest <= firstBlockSize)
    {
      SeekNext(fs.g, fs.D(), c, i, rest);
      rest := rest - commonBlockSize;
      b := fs.Word(b, 0);
      i := i + 1;
    }
    SeekPosition(fs.g, i, rest, offset);
  }

  lemma SeekPosition(g: Geometry, i: nat, rest: nat, offset: nat)
    requires g.Ok() && g.Capacity(i) + rest == offset
    ensures g.Hdr(i) + rest < g.blockSize ==> Position(g, offset) == (i, g.Hdr(i) + rest)
  {
    hide Position, Geometry.Capacity, Geometry.Base;
    if g.Hdr(i) + rest < g.blockSize {
      var o := g.Hdr(i) + rest;
      assert g.Capacity(i) + (o - g.Hdr(i)) == offset;
      PositionOnto(g, i, o);
    }
  }

  /** The bytes a read at offset returns. */
  function Slice(content: seq<byte>, offset: nat, length: nat): seq<byte> {
    if offset <= |content| then content[offset..Min(offset + length, |content|)] else []
  }

  lemma SliceBytes(content: seq<byte>, offset: nat, length: nat, i: nat)
    ensures |Slice(content, offset, length)| == if offset < |content| then Min(length, |content| - offset) else 0
    ensures i < |Slice(content, offset, length)| ==> Slice(content, offset, length)[i] == content[offset + i]
  {
  }

  /** One piece of a copy: the bytes in the block, and where the next piece starts. */
  lemma Piece(g: Geometry, d: Disk, c: seq<int>, i: nat, rest: nat, len: nat, pos: nat)
    requires g.Ok() && d.Shaped(g) && Linked(g, d, c) && i < |c| && rest <= g.Room(i)
    requires pos == g.Capacity(i) + rest && pos + len <= g.Capacity(|c|)
    ensures var n := Min(g.Room(i) - rest, len);
      && pos + n <= g.Capacity(|c|) && g.Hdr(i) + rest + n <= |d.blocks[c[i]]|
      && Space(g, d, c)[pos..pos + n] == d.blocks[c[i]][g.Hdr(i) + rest..g.Hdr(i) + rest + n]
      && (n < len ==> i + 1 < |c| && d.Cont(g, c[i]) == c[i + 1] && g.Capacity(i + 1) == pos + n)
  {
    hide Linked, Space;
    LinkedBasics(g, d, c);
    var n := Min(g.Room(i) - rest, len);
    SpaceSlice(g, d, c, i, rest, n);
    if n < len { SeekNext(g, d, c, i, rest + len); }
  }

  lemma PatchSlices(m: seq<byte>, space: seq<byte>, lo: nat, mid: nat, hi: nat)
    requires lo <= mid <= hi <= |space| && hi - lo <= |m|
    ensures Patch(Patch(m, 0, space[lo..mid]), mid - lo, space[mid..hi]) == Patch(m, 0, space[lo..hi])
  {
    PatchPatch(m, 0, space[lo..mid], space[mid..hi]);
    assert space[lo..mid] + space[mid..hi] == space[lo..hi];
  }

  lemma PatchNothing(m: seq<byte>, at: nat, x: seq<byte>)
    requires |x| == 0 && at <= |m|
    ensures Patch(m, at, x) == m
  {
  }

  /** One round of the copy loop of read_file. */
  method CopyOutPiece(fs: FsDescriptors, b: nat, headerSize: nat, rest: nat, len: nat, buffer: array<byte>, done: nat,
                      ghost offset: nat, ghost c: seq<int>, ghost i: nat, ghost m: seq<byte>)
      returns (copyLen: nat, next: nat)
    requires fs.Mapped() && Linked(fs.g, fs.D(), c) && InBlocks(fs.D(), c) && buffer != fs.container && 0 < len
    requires i < |c| && b == c[i] && headerSize == fs.g.Hdr(i) && rest <= fs.g.Room(i)
    requires fs.g.Capacity(i) + rest == offset + done && offset + done + len <= fs.g.Capacity(|c|)
    requires |m| == buffer.Length && done + len <= |m|
    requires buffer[..] == Patch(m, 0, Space(fs.g, fs.D(), c)[offset..offset + done])
    modifies buffer
    ensures copyLen <= len
    ensures buffer[..] == Patch(m, 0, Space(fs.g, fs.D(), c)[offset..offset + done + copyLen])
    ensures copyLen < len ==> i + 1 < |c| && next == c[i + 1] && fs.g.Capacity(i + 1) == offset + done + copyLen
    ensures copyLen == 0 ==> copyLen < len
  {
    hide View, FsDescriptors.Word, Linked, Space, Patch, InBlocks, Distinct;
    ghost var space := Space(fs.g, fs.D(), c);
    LinkedBasics(fs.g, fs.D(), c);
    Piece(fs.g, fs.D(), c, i, rest, len, offset + done);
    var availableLen := fs.g.blockSize - headerSize - rest;
    copyLen := Min(availableLen, len);
    PatchSlices(m, space, offset, offset + done, offset + done + copyLen);
    fs.Load(b, rest + headerSize, copyLen, buffer, done);
    next := b;
    if copyLen < len {
      next := fs.Word(b, 0);
    }
  }

  /** The copy loop of read_file. */
  method CopyOut(fs: FsDescriptors, blockIndex: nat, offset: nat, total: nat, buffer: array<byte>, ghost c: seq<int>)
    requires fs.Mapped() && Linked(fs.g, fs.D(), c) && InBlocks(fs.D(), c) && c[0] == blockIndex
    requires offset + total <= fs.g.Capacity(|c|) && total <= buffer.Length && buffer != fs.container
    modifies buffer
    ensures buffer[..] == Patch(old(buffer[..]), 0, Space(fs.g, fs.D(), c)[offset..offset + total])
  {
    hide View, FsDescriptors.Word, Linked, Space, Patch, InBlocks, Distinct;
    ghost var g, d, m := fs.g, fs.D(), buffer[..];
    ghost var space := Space(g, d, c);
    var b: nat, headerSize: nat, rest: nat;
    ghost var i: nat;
    b, headerSize, rest, i := Seek(fs, blockIndex, offset, c);
    var len: nat, done: nat := total, 0;
    PatchNothing(m, 0, space[offset..offset]);
    while len > 0
      invariant done + len == total && fs.D() == d
      invariant buffer[..] == Patch(m, 0, space[offset..offset + done])
      invariant 0 < len ==> i < |c| && b == c[i] && headerSize == g.Hdr(i)
      invariant 0 < len ==> rest <= g.Room(i) && g.Capacity(i) + rest == offset + done
      decreases len, |c| - i
    {
      var copyLen, next := CopyOutPiece(fs, b, headerSize, rest, len, buffer, done, offset, c, i, m);
      headerSize, rest := HEADER, 0;
      len, done := len - copyLen, done + copyLen;
      if len > 0 {
        b, i := next, i + 1;
      }
    }
  }

  /** The copying part of read_file: what it copies lies inside the file. */
  method CopyContent(fs: FsDescriptors, blockIndex: nat, offset: nat, total: nat, buffer: array<byte>)
    requires fs.Valid() && blockIndex in fs.live && total <= buffer.Length && buffer != fs.container
    requires offset + total <= |fs.Files()[blockIndex].content|
    modifies buffer
    ensures fs.Valid()
    ensures buffer[..] == Patch(old(buffer[..]), 0, fs.Files()[blockIndex].content[offset..offset + total])
  {
    hide View, Linked, Wf, FilesOf, Space, InBlocks, Distinct, Terminated;
    ghost var g, d, c := fs.g, fs.D(), fs.live[blockIndex];
    WfFile(g, d, fs.live, blockIndex);
    FileSpace(g, d, fs.live, blockIndex);
    CopyOut(fs, blockIndex, offset, total, buffer, c);
    ghost var content := fs.Files()[blockIndex].content;
    assert content[offset..offset + total] == Space(g, d, c)[offset..offset + total];
  }

  /** Copies the slice of the file that starts at offset into the buffer and reports its length.
      The copy may start with an empty piece, at the very end of a block; it never follows a link
      beyond the counted chain. */
  method ReadFile(fs: FsDescriptors, blockIndex: nat, offset: nat, length: nat, buffer: array<byte>)
      returns (r: Result<nat>)
    requires fs.Valid() && blockIndex in fs.live && length <= buffer.Length && length < HALF && buffer != fs.container
    modifies buffer
    ensures r == var content := fs.Files()[blockIndex].content;
      if 0 < length && |content| < offset then Fatal(InvalidPosition) else Ok(|Slice(content, offset, length)|)
    ensures r.Fatal? ==> buffer[..] == old(buffer[..])
    ensures r.Ok? ==> r.value <= buffer.Length
    ensures r.Ok? ==>
              buffer[..] == Patch(old(buffer[..]), 0, Slice(fs.Files()[blockIndex].content, offset, length))
  {
    hide View, FsDescriptors.Word, Linked, Wf, FilesOf, Space, InBlocks, Distinct, Terminated;
    WfFile(fs.g, fs.D(), fs.live, blockIndex);
    FileSpace(fs.g, fs.D(), fs.live, blockIndex);
    if length == 0 {
      return Ok(0);
    }
    var size := fs.Word(blockIndex, SIZE_AT);
    if offset == size {
      return Ok(0);
    }
    if offset > size {
      return Fatal(InvalidPosition);
    }
    var total := if offset + length > size then size - offset else length;
    CopyContent(fs, blockIndex, offset, total, buffer);
    return Ok(total);
  }

  // ---- Writing ----

  /** A file's bytes once data is written at offset: no data, no change, wherever offset is. */
  function Splice(content: seq<byte>, offset: nat, data: seq<byte>): seq<byte>
    requires data == [] || offset <= |content|
  {
    if data == [] then content else
      content[..offset] + data + content[Min(offset + |data|, |content|)..]
  }

  /** What is written is what is read again, and every other byte is as before. */
  lemma ReadBack(content: seq<byte>, offset: nat, data: seq<byte>, i: nat)
    requires offset <= |content|
    ensures Slice(Splice(content, offset, data), offset, |data|) == data
    ensures var s := Splice(content, offset, data);
      && |s| == (if data == [] || offset + |data| <= |content| then |content| else offset + |data|)
      && (i < |content| && !(offset <= i < offset + |data|) ==> s[i] == content[i])
  {
    var s := Splice(content, offset, data);
    if data != [] {
      assert s[offset..offset + |data|] == data;
    }
  }

  /** d became e by writing payload bytes of the file on chain c. */
  ghost predicate Written(g: Geometry, d: Disk, e: Disk, c: seq<int>)
    requires g.Ok() && d.Shaped(g)
  {
    && e.Shaped(g) && Linked(g, d, c) && Linked(g, e, c)
    && SameOutside(d, e, Set(c)) && e.used == d.used
    && e.Size(g, c[0]) == d.Size(g, c[0]) && e.Flags(g, c[0]) == d.Flags(g, c[0])
    && e.Last(g, c[0]) == d.Last(g, c[0])
    && (forall i {:trigger e.Cont(g, c[i])} :: 0 <= i < |c| ==> e.Cont(g, c[i]) == d.Cont(g, c[i]))
  }

  lemma WrittenLinked(g: Geometry, d: Disk, e: Disk, c: seq<int>)
    requires g.Ok() && d.Shaped(g) && Written(g, d, e, c)
    ensures e.Shaped(g) && Linked(g, e, c)
  {
  }

  lemma WrittenNothing(g: Geometry, d: Disk, c: seq<int>)
    requires g.Ok() && d.Shaped(g) && Linked(g, d, c)
    ensures Written(g, d, d, c)
  {
  }

  lemma WriteConts(g: Geometry, d: Disk, c: seq<int>, i: nat, o: nat, data: seq<byte>)
    requires g.Ok() && d.Shaped(g) && Linked(g, d, c) && i < |c| && o + |data| <= g.Room(i)
    ensures var e := d.Write(g, c[i], g.Hdr(i) + o, data);
      && Linked(g, e, c)
      && e.Size(g, c[0]) == d.Size(g, c[0]) && e.Flags(g, c[0]) == d.Flags(g, c[0])
      && e.Last(g, c[0]) == d.Last(g, c[0])
      && (forall j {:trigger e.Cont(g, c[j])} :: 0 <= j < |c| ==> e.Cont(g, c[j]) == d.Cont(g, c[j]))
  {
    var e := d.Write(g, c[i], g.Hdr(i) + o, data);
    StorePayloadHeader(g, d, c[i], i, o, data);
    forall j | 0 <= j < |c|
      ensures e.Cont(g, c[j]) == d.Cont(g, c[j])
    {
      if c[j] != c[i] { assert e.blocks[c[j]] == d.blocks[c[j]]; }
    }
    if i > 0 { assert c[0] != c[i]; }
  }

  lemma WriteStep(g: Geometry, d0: Disk, d: Disk, c: seq<int>, i: nat, o: nat, data: seq<byte>)
    requires g.Ok() && d0.Shaped(g) && Written(g, d0, d, c) && i < |c| && o + |data| <= g.Room(i)
    ensures c[i] in d.blocks && Written(g, d0, d.Write(g, c[i], g.Hdr(i) + o, data), c)
  {
    hide Linked, Distinct;
    LinkedBasics(g, d, c);
    WriteConts(g, d, c, i, o, data);
    assert c[i] in Set(c);
    OutsideWrite(g, d0, d, Set(c), c[i], g.Hdr(i) + o, data);
    var e := d.Write(g, c[i], g.Hdr(i) + o, data);
    forall j | 0 <= j < |c|
      ensures e.Cont(g, c[j]) == d0.Cont(g, c[j])
    {
      assert d.Cont(g, c[j]) == d0.Cont(g, c[j]);
    }
  }

  /** The next piece of a copy into a file. */
  lemma PieceIn(g: Geometry, d0: Disk, d: Disk, c: seq<int>, i: nat, rest: nat, data: seq<byte>, offset: nat, done: nat)
    requires g.Ok() && d0.Shaped(g) && Written(g, d0, d, c) && i < |c| && rest <= g.Room(i)
    requires InBlocks(d0, c) && InBlocks(d, c)
    requires offset + |data| <= g.Capacity(|c|) && done < |data| && g.Capacity(i) + rest == offset + done
    requires Space(g, d, c) == Patch(Space(g, d0, c), offset, data[..done])
    ensures var n := Min(g.Room(i) - rest, |data| - done);
      && c[i] in d.blocks
      && var e := d.Write(g, c[i], g.Hdr(i) + rest, data[done..done + n]);
      && Written(g, d0, e, c) && InBlocks(e, c)
      && Space(g, e, c) == Patch(Space(g, d0, c), offset, data[..done + n])
      && (done + n < |data| ==> i + 1 < |c| && e.Cont(g, c[i]) == c[i + 1] && g.Capacity(i + 1) == offset + done + n)
  {
    hide Linked, Distinct, Space, Patch, InBlocks, Written;
    WrittenLinked(g, d0, d, c);
    LinkedBasics(g, d, c);
    var n := Min(g.Room(i) - rest, |data| - done);
    var piece := data[done..done + n];
    WriteStep(g, d0, d, c, i, rest, piece);
    SpaceWrite(g, d, c, i, rest, piece);
    PatchPatch(Space(g, d0, c), offset, data[..done], piece);
    assert data[..done] + piece == data[..done + n];
    var e := d.Write(g, c[i], g.Hdr(i) + rest, piece);
    WrittenLinked(g, d0, e, c);
    LinkedBasics(g, e, c);
    if done + n < |data| { SeekNext(g, e, c, i, rest + (|data| - done)); }
  }

  /** One round of the copy loop of write_file_unchecked. */
  method CopyInPiece(fs: FsDescriptors, b: nat, headerSize: nat, rest: nat, data: seq<byte>, done: nat,
                     ghost offset: nat, ghost d: Disk, ghost c: seq<int>, ghost i: nat)
      returns (copyLen: nat, next: nat)
    requires fs.Mapped() && d.Shaped(fs.g) && Written(fs.g, d, fs.D(), c) && InBlocks(d, c) && InBlocks(fs.D(), c)
    requires done < |data| && offset + |data| <= fs.g.Capacity(|c|)
    requires i < |c| && b == c[i] && headerSize == fs.g.Hdr(i) && rest <= fs.g.Room(i)
    requires fs.g.Capacity(i) + rest == offset + done
    requires Space(fs.g, fs.D(), c) == Patch(Space(fs.g, d, c), offset, data[..done])
    modifies fs.container
    ensures done + copyLen <= |data| && Written(fs.g, d, fs.D(), c) && InBlocks(fs.D(), c)
    ensures Space(fs.g, fs.D(), c) == Patch(Space(fs.g, d, c), offset, data[..done + copyLen])
    ensures done + copyLen < |data| ==>
              i + 1 < |c| && next == c[i + 1] && fs.g.Capacity(i + 1) == offset + done + copyLen
  {
    hide View, FsDescriptors.Word, Linked, Space, Patch, Written, Distinct, InBlocks;
    PieceIn(fs.g, d, fs.D(), c, i, rest, data, offset, done);
    var availableLen := fs.g.blockSize - headerSize - rest;
    copyLen := Min(availableLen, |data| - done);
    fs.Store(b, rest + headerSize, data[done..done + copyLen]);
    next := b;
    if done + copyLen < |data| {
      next := fs.Word(b, 0);
    }
  }

  /** The copy loop of write_file_unchecked. */
  method CopyIn(fs: FsDescriptors, blockIndex: nat, offset: nat, data: seq<byte>, ghost c: seq<int>)
    requires fs.Mapped() && Linked(fs.g, fs.D(), c) && InBlocks(fs.D(), c) && c[0] == blockIndex
    requires offset + |data| <= fs.g.Capacity(|c|)
    modifies fs.container
    ensures Written(fs.g, old(fs.D()), fs.D(), c) && InBlocks(fs.D(), c)
    ensures Space(fs.g, fs.D(), c) == Patch(Space(fs.g, old(fs.D()), c), offset, data)
  {
    hide View, FsDescriptors.Word, Linked, Space, Patch, Written, Distinct, InBlocks;
    ghost var g, d := fs.g, fs.D();
    WrittenNothing(g, d, c);
    var b: nat, headerSize: nat, rest: nat;
    ghost var i: nat;
    b, headerSize, rest, i := Seek(fs, blockIndex, offset, c);
    var length: nat, done: nat := |data|, 0;
    PatchNothing(Space(g, d, c), offset, data[..0]);
    while length > 0
      invariant done + length == |data| && Written(g, d, fs.D(), c) && InBlocks(fs.D(), c)
      invariant Space(g, fs.D(), c) == Patch(Space(g, d, c), offset, data[..done])
      invariant 0 < length ==> i < |c| && b == c[i] && headerSize == g.Hdr(i)
      invariant 0 < length ==> rest <= g.Room(i) && g.Capacity(i) + rest == offset + done
      decreases length, |c| - i
    {
      var copyLen, next := CopyInPiece(fs, b, headerSize, rest, data, done, offset, d, c, i);
      headerSize, rest := HEADER, 0;
      length, done := length - copyLen, done + copyLen;
      if length > 0 {
        b, i := next, i + 1;
      }
    }
    assert data[..done] == data;
  }

  /** Every chain ends in 0, and so would the chain of a file that is given free blocks. */
  ghost predicate Zeroed(g: Geometry, d: Disk, live: map<int, seq<int>>)
    requires g.Ok() && Wf(g, d, live)
  {
    && (forall h :: h in live ==> Terminated(g, d, live[h]))
    && (forall b :: b in d.blocks && b !in d.used ==> d.Cont(g, b) == 0)
  }

  ghost predicate Ascending(c: seq<int>) {
    forall i, j :: 0 <= i < j < |c| ==> c[i] < c[j]
  }

  /** Blocks were handed out from the first to the last, and none came back. */
  ghost predicate InOrder(used: set<int>, live: map<int, seq<int>>) {
    used == Below(|used|) && forall h :: h in live ==> Ascending(live[h])
  }

  /** A disk on which nothing was ever freed. */
  ghost predicate Pristine(g: Geometry, d: Disk, live: map<int, seq<int>>)
    requires g.Ok() && Wf(g, d, live)
  {
    Zeroed(g, d, live) && InOrder(d.used, live)
  }

  lemma WrittenReplaces(g: Geometry, d: Disk, live: map<int, seq<int>>, e: Disk, h: int)
    requires g.Ok() && Wf(g, d, live) && h in live && Written(g, d, e, live[h])
    ensures Replaces(g, d, live, e, h, live[h])
  {
    hide Linked, Wf, Space;
    WfFile(g, d, live, h);
    assert Set(live[h]) + Set(live[h]) == Set(live[h]);
    assert d.used == d.used - Set(live[h]) + Set(live[h]);
  }

  lemma WrittenMoved(g: Geometry, d: Disk, live: map<int, seq<int>>, e: Disk, h: int)
    requires g.Ok() && Wf(g, d, live) && h in live && Written(g, d, e, live[h])
    ensures Moved(g, d, live, e, h, live[h])
  {
    hide Linked, Wf, Space, Replaces, SameOutside;
    WrittenReplaces(g, d, live, e, h);
    WfShaped(g, d, live);
    LinkedBasics(g, d, live[h]);
    var t := live[h][|live[h]| - 1];
    assert e.Cont(g, t) == d.Cont(g, t);
  }

  lemma WrittenWf(g: Geometry, d: Disk, live: map<int, seq<int>>, e: Disk, h: int)
    requires g.Ok() && Wf(g, d, live) && h in live && Written(g, d, e, live[h])
    ensures e.super == d.super
    ensures Wf(g, e, live) && InBlocks(e, live[h]) && h in d.blocks && d.Size(g, h) <= g.Capacity(|live[h]|)
    ensures FilesOf(g, e, live) ==
            FilesOf(g, d, live)[h := File(d.Flags(g, h), Space(g, e, live[h])[..d.Size(g, h)])]
  {
    hide Linked, Wf, Space, FilesOf, FileOk;
    WfFile(g, d, live, h);
    FileSpace(g, d, live, h);
    WrittenReplaces(g, d, live, e, h);
    ReplaceWf(g, d, live, e, h, live[h]);
    assert live[h := live[h]] == live;
    LinkedBasics(g, e, live[h]);
  }

  lemma WrittenPristine(g: Geometry, d: Disk, live: map<int, seq<int>>, e: Disk, h: int)
    requires g.Ok() && Wf(g, d, live) && h in live && Written(g, d, e, live[h]) && Wf(g, e, live)
    requires Pristine(g, d, live)
    ensures Pristine(g, e, live)
  {
    hide Linked, Owned, Distinct, InOrder;
    WfFile(g, d, live, h);
    forall k | k in live && k != h
      ensures Terminated(g, e, live[k])
    {
      OtherFile(g, d, live, e, h, Set(live[h]), k);
    }
    assert e.Cont(g, live[h][|live[h]| - 1]) == d.Cont(g, live[h][|live[h]| - 1]);
    forall b | b in e.blocks && b !in e.used
      ensures e.Cont(g, b) == 0
    {
      assert b !in Set(live[h]);
    }
  }

  lemma ResizedGrows(g: Geometry, d: Disk, live: map<int, seq<int>>, e: Disk, h: int, newSize: nat)
    requires g.Ok() && Wf(g, d, live) && h in live && Resized(g, d, live, e, h, newSize)
    requires |live[h]| <= g.BlocksRequired(newSize)
    ensures var k := ResizedChain(g, d, live[h], newSize);
      Set(live[h]) <= Set(k) && e.used == d.used + Set(k)
      && forall b :: b in e.blocks && b !in e.used ==> b in d.blocks && b !in d.used && e.blocks[b] == d.blocks[b]
  {
    hide Linked, Wf, SamePayload, FileOk, Fresh;
    WfFile(g, d, live, h);
    var c, k := live[h], ResizedChain(g, d, live[h], newSize);
    assert c <= k;
    assert forall i :: 0 <= i < |c| ==> k[i] == c[i];
  }

  lemma TailTerminated(g: Geometry, d: Disk, live: map<int, seq<int>>, e: Disk, h: int, newSize: nat)
    requires g.Ok() && Wf(g, d, live) && h in live && Resized(g, d, live, e, h, newSize)
    requires |live[h]| <= g.BlocksRequired(newSize) && Zeroed(g, d, live)
    ensures Terminated(g, e, ResizedChain(g, d, live[h], newSize))
  {
    hide Wf, SamePayload, Fresh, SameOutside;
    WfFile(g, d, live, h);
    var c, k := live[h], ResizedChain(g, d, live[h], newSize);
    ResizedPrefix(g, d, c, newSize);
    LinkedBasics(g, e, k);
    var t := k[|k| - 1];
    if |c| < |k| {
      forall i | 0 <= i < |c|
        ensures c[i] != t
      {
        assert k[i] == c[i] && k[i] != k[|k| - 1];
      }
      assert t in k;
    } else {
      assert k == c;
    }
  }

  lemma ResizedInOrder(g: Geometry, d: Disk, live: map<int, seq<int>>, e: Disk, h: int, newSize: nat)
    requires g.Ok() && Wf(g, d, live) && h in live && Resized(g, d, live, e, h, newSize)
    requires |live[h]| <= g.BlocksRequired(newSize) && InOrder(d.used, live)
    ensures InOrder(e.used, live[h := ResizedChain(g, d, live[h], newSize)])
  {
    hide Wf, Fresh, Linked, Resized, ResizedChain, Below, Set, Ascending;
    var c, k := live[h], ResizedChain(g, d, live[h], newSize);
    WfFile(g, d, live, h);
    ResizedGrows(g, d, live, e, h, newSize);
    ResizedLinks(g, d, live, e, h, newSize);
    LinkedBasics(g, e, k);
    GrowingFresh(g, d, c, newSize);
    FreshAbove(|d.used|, g.blocksCount, |k| - |c|);
    assert forall i :: |c| <= i < |k| ==> k[i] == k[|c|..][i - |c|] < g.blocksCount;
    GrownInOrder(d.used, c, k, e.used);
  }

  lemma GrowingFresh(g: Geometry, d: Disk, c: seq<int>, newSize: nat)
    requires g.Ok() && |c| <= g.BlocksRequired(newSize)
    ensures var k := ResizedChain(g, d, c, newSize);
      c <= k && k[|c|..] == Fresh(d.used, g.blocksCount, |k| - |c|)
  {
  }

  lemma GrownInOrder(used: set<int>, c: seq<int>, k: seq<int>, after: set<int>)
    requires used == Below(|used|) && c <= k && Set(c) <= used && after == used + Set(k) && Ascending(c)
    requires forall i :: |c| <= i < |k| ==> k[i] == |used| + (i - |c|)
    ensures after == Below(|after|) && Ascending(k)
  {
    hide Below;
    var m, n := |used|, |used| + |k| - |c|;
    assert forall i :: 0 <= i < |c| ==> k[i] == c[i] && c[i] in Set(c);
    forall b
      ensures b in after <==> b in Below(n)
    {
      if m <= b < n { assert k[|c| + (b - m)] == b; }
    }
    assert after == Below(n);
  }

  /** Growing keeps a pristine disk pristine: a new tail was a free block, and those hold 0. */
  lemma ResizedPristine(g: Geometry, d: Disk, live: map<int, seq<int>>, e: Disk, h: int, newSize: nat)
    requires g.Ok() && Wf(g, d, live) && h in live && Resized(g, d, live, e, h, newSize)
    requires |live[h]| <= g.BlocksRequired(newSize) && Pristine(g, d, live)
    requires Wf(g, e, live[h := ResizedChain(g, d, live[h], newSize)])
    ensures Pristine(g, e, live[h := ResizedChain(g, d, live[h], newSize)])
  {
    hide Linked, Owned, Distinct, Fresh, SamePayload, Space, Wf, FileOk, FileAt, Resized, ResizedChain, InOrder;
    WfFile(g, d, live, h);
    ResizedInOrder(g, d, live, e, h, newSize);
    ResizedGrows(g, d, live, e, h, newSize);
    TailTerminated(g, d, live, e, h, newSize);
    ResizedTerminated(g, d, live, e, h, newSize);
  }

  lemma ResizedTerminated(g: Geometry, d: Disk, live: map<int, seq<int>>, e: Disk, h: int, newSize: nat)
    requires g.Ok() && Wf(g, d, live) && h in live && Resized(g, d, live, e, h, newSize)
    ensures forall j :: j in live && j != h ==> Terminated(g, e, live[j]) == Terminated(g, d, live[j])
  {
    hide Linked, Owned, Distinct, Fresh, SamePayload, Space, Wf, FileOk, FileAt, ResizedChain, Terminated;
    WfFile(g, d, live, h);
    forall j | j in live && j != h
      ensures Terminated(g, e, live[j]) == Terminated(g, d, live[j])
    {
      OtherFile(g, d, live, e, h, Set(live[h]) + Set(ResizedChain(g, d, live[h], newSize)), j);
    }
  }

  // ---- write_file and its relatives ----

  /** How write_file_unchecked ends. */
  ghost function WriteVerdict(g: Geometry, d: Disk, c: seq<int>, size: nat, offset: nat, length: nat): Result<()>
    requires g.Ok()
  {
    if length == 0 then Ok(())
    else if size < offset then Fatal(InvalidPosition)
    else if size < offset + length && !Fits(g, d, c, offset + length) then Fatal(FullError(g))
    else Ok(())
  }

  ghost function WrittenChain(g: Geometry, d: Disk, c: seq<int>, size: nat, offset: nat, length: nat): seq<int>
    requires g.Ok()
  {
    if 0 < length && size < offset + length then ResizedChain(g, d, c, offset + length) else c
  }

  lemma PatchSplice(s: seq<byte>, size: nat, offset: nat, data: seq<byte>)
    requires data != [] && offset + |data| <= size <= |s|
    ensures Patch(s, offset, data)[..size] == Splice(s[..size], offset, data)
  {
  }

  /** Writing over bytes the file already has. */
  method Overwrite(fs: FsDescriptors, blockIndex: nat, offset: nat, data: seq<byte>)
    requires fs.Valid() && blockIndex in fs.live && data != []
    requires offset + |data| <= |fs.Files()[blockIndex].content|
    modifies fs.container
    ensures fs.Valid() && fs.Files() == old(fs.Files())[blockIndex :=
              var f := old(fs.Files())[blockIndex]; f.(content := Splice(f.content, offset, data))]
    ensures old(Pristine(fs.g, fs.D(), fs.live)) ==> Pristine(fs.g, fs.D(), fs.live)
    ensures Moved(fs.g, old(fs.D()), fs.live, fs.D(), blockIndex, fs.live[blockIndex])
  {
    hide View, FsDescriptors.Word, Wf, FilesOf, Linked, Space, Patch, Written, Splice, Pristine, Moved;
    ghost var g, h, d, live := fs.g, blockIndex, fs.D(), fs.live;
    WfFile(g, d, live, h);
    FileSpace(g, d, live, h);
    CopyIn(fs, blockIndex, offset, data, live[h]);
    WrittenWf(g, d, live, fs.D(), h);
    WrittenMoved(g, d, live, fs.D(), h);
    PatchSplice(Space(g, d, live[h]), d.Size(g, h), offset, data);
    if Pristine(g, d, live) { WrittenPristine(g, d, live, fs.D(), h); }
  }

  lemma GrownSplice(s: seq<byte>, t: seq<byte>, offset: nat, data: seq<byte>)
    requires offset <= |s| <= |t| && data != [] && offset + |data| == |t| && t[..|s|] == s
    ensures Splice(t, offset, data) == Splice(s, offset, data)
  {
    assert t[..offset] == t[..|s|][..offset] == s[..offset];
  }

  /** Makes room for a write that ends beyond the end of the file. */
  method GrowFile(fs: FsDescriptors, blockIndex: nat, newSize: nat) returns (r: Result<()>)
    requires fs.Valid() && blockIndex in fs.live && newSize < LIMIT
    requires |fs.Files()[blockIndex].content| < newSize
    modifies fs`live, fs.container
    ensures r.Fatal? <==> !Fits(fs.g, old(fs.D()), old(fs.live)[blockIndex], newSize)
    ensures r.Fatal? ==> r.error == FullError(fs.g) && fs.live == old(fs.live) && fs.SuperblockOk()
    ensures r.Fatal? ==> Damaged(fs.g, old(fs.D()), fs.live, fs.D(), blockIndex)
    ensures r.Ok? ==> fs.live == old(fs.live)[blockIndex :=
              ResizedChain(fs.g, old(fs.D()), old(fs.live)[blockIndex], newSize)]
    ensures r.Ok? ==> fs.Valid() && fs.Files() == old(fs.Files())[blockIndex := fs.Files()[blockIndex]]
    ensures r.Ok? ==> ResizedFile(old(fs.Files())[blockIndex], fs.Files()[blockIndex], newSize)
    ensures r.Ok? ==> Moved(fs.g, old(fs.D()), old(fs.live), fs.D(), blockIndex, fs.live[blockIndex])
    ensures r.Ok? && old(Pristine(fs.g, fs.D(), fs.live)) ==> Pristine(fs.g, fs.D(), fs.live)
  {
    hide View, Wf, FilesOf, Linked, Space, Resized, ResizedChain, Pristine, Damaged, Fits, FileOk, Ends, Moved;
    ghost var g, h, d, live := fs.g, blockIndex, fs.D(), fs.live;
    WfFile(g, d, live, h);
    FileSpace(g, d, live, h);
    BlocksRequiredMonotone(g, d.Size(g, h), newSize);
    var _ :- TruncateFile(fs, blockIndex, newSize);
    ResizedMoved(g, d, live, fs.D(), h, newSize);
    if Pristine(g, d, live) { ResizedPristine(g, d, live, fs.D(), h, newSize); }
    return Ok(());
  }

  lemma GrownFile(f: File, f': File, offset: nat, data: seq<byte>)
    requires ResizedFile(f, f', offset + |data|) && offset <= |f.content| <= offset + |data| && data != []
    ensures f'.flags == f.flags && |f'.content| == offset + |data|
    ensures Splice(f'.content, offset, data) == Splice(f.content, offset, data)
  {
    GrownSplice(f.content, f'.content, offset, data);
  }

  /** f' has room for the write, and nothing but room. */
  ghost predicate RoomFor(f: File, f': File, offset: nat, data: seq<byte>) {
    && f'.flags == f.flags && offset <= |f.content| && offset + |data| <= |f'.content|
    && Splice(f'.content, offset, data) == Splice(f.content, offset, data)
  }

  /** Grows the file when the write ends beyond its end. */
  method MakeRoom(fs: FsDescriptors, blockIndex: nat, size: nat, offset: nat, data: seq<byte>)
      returns (r: Result<()>)
    requires fs.Valid() && blockIndex in fs.live && 0 < |data| < HALF
    requires size == |fs.Files()[blockIndex].content| && offset <= size
    modifies fs`live, fs.container
    ensures r.Fatal? <==>
            size < offset + |data| && !Fits(fs.g, old(fs.D()), old(fs.live)[blockIndex], offset + |data|)
    ensures r.Fatal? ==> r.error == FullError(fs.g) && fs.live == old(fs.live) && fs.SuperblockOk()
    ensures r.Fatal? ==> Damaged(fs.g, old(fs.D()), fs.live, fs.D(), blockIndex)
    ensures r.Ok? ==> fs.live == old(fs.live)[blockIndex :=
              WrittenChain(fs.g, old(fs.D()), old(fs.live)[blockIndex], size, offset, |data|)]
    ensures r.Ok? ==> fs.Valid() && blockIndex in fs.live
    ensures r.Ok? ==> fs.Files() == old(fs.Files())[blockIndex := fs.Files()[blockIndex]]
    ensures r.Ok? ==> RoomFor(old(fs.Files())[blockIndex], fs.Files()[blockIndex], offset, data)
    ensures r.Ok? ==> Moved(fs.g, old(fs.D()), old(fs.live), fs.D(), blockIndex, fs.live[blockIndex])
    ensures r.Ok? && old(Pristine(fs.g, fs.D(), fs.live)) ==> Pristine(fs.g, fs.D(), fs.live)
  {
    hide View, Wf, FilesOf, ResizedChain, Splice, Pristine, Damaged, Fits, ResizedFile, Moved, Space, Linked;
    ghost var g, h, d, live := fs.g, blockIndex, fs.D(), fs.live;
    ghost var f := fs.Files()[h];
    FileSpace(g, d, live, h);
    if |data| + offset > size {
      var _ :- GrowFile(fs, blockIndex, |data| + offset);
      GrownFile(f, fs.Files()[h], offset, data);
    } else {
      MovedSelf(g, d, live, h);
      assert live == live[h := live[h]];
    }
    return Ok(());
  }

  lemma UnwrittenChain(g: Geometry, d: Disk, c: seq<int>, size: nat, offset: nat)
    requires g.Ok()
    ensures WrittenChain(g, d, c, size, offset, 0) == c
  {
  }

  /** Writing is splicing: the file's bytes become its old bytes with data put in at offset, and
      nothing else in the file system changes. */
  method WriteFileUnchecked(fs: FsDescriptors, blockIndex: nat, offset: nat, data: seq<byte>) returns (r: Result<()>)
    requires fs.Valid() && blockIndex in fs.live && |data| < HALF
    modifies fs`live, fs.container
    ensures r == WriteVerdict(fs.g, old(fs.D()), old(fs.live)[blockIndex],
                              |old(fs.Files())[blockIndex].content|, offset, |data|)
    ensures r.Ok? ==> data == [] || offset <= |old(fs.Files())[blockIndex].content|
    ensures r.Ok? ==> fs.Valid() && fs.Files() == old(fs.Files())[blockIndex :=
              var f := old(fs.Files())[blockIndex]; f.(content := Splice(f.content, offset, data))]
    ensures r.Ok? ==> fs.live == old(fs.live)[blockIndex :=
              WrittenChain(fs.g, old(fs.D()), old(fs.live)[blockIndex],
                           |old(fs.Files())[blockIndex].content|, offset, |data|)]
    ensures r.Ok? && old(Pristine(fs.g, fs.D(), fs.live)) ==> Pristine(fs.g, fs.D(), fs.live)
    ensures r.Ok? ==> Moved(fs.g, old(fs.D()), old(fs.live), fs.D(), blockIndex, fs.live[blockIndex])
    ensures r.Fatal? ==> fs.live == old(fs.live) && fs.SuperblockOk()
    ensures r.Fatal? ==> if r.error == InvalidPosition then fs.D() == old(fs.D())
                         else r.error == FullError(fs.g) && Damaged(fs.g, old(fs.D()), fs.live, fs.D(), blockIndex)
  {
    hide View, FsDescriptors.Word, Wf, FilesOf, Linked, Space, Splice, Pristine, Damaged, FileOk, InBlocks, Distinct,
      Moved, WrittenChain, Fits;
    ghost var g, h, d, live := fs.g, blockIndex, fs.D(), fs.live;
    ghost var f := fs.Files()[h];
    WfFile(g, d, live, h);
    FileSpace(g, d, live, h);
    if |data| == 0 {
      SpliceNothing(f.content, offset);
      UnwrittenChain(g, d, live[h], |f.content|, offset);
      MovedSelf(g, d, live, h);
      return Ok(());
    }
    var size := fs.Word(blockIndex, SIZE_AT);
    if offset > size {
      return Fatal(InvalidPosition);
    }
    var _ :- MakeRoom(fs, blockIndex, size, offset, data);
    ghost var mid, k := fs.D(), fs.live[h];
    Overwrite(fs, blockIndex, offset, data);
    MovedTwice(g, d, live, mid, h, k, fs.D());
    return Ok(());
  }

  /** write_file insists on the file flag. */
  method WriteFile(fs: FsDescriptors, blockIndex: nat, offset: nat, data: seq<byte>) returns (r: Result<()>)
    requires fs.Valid() && blockIndex in fs.live && |data| < HALF
    modifies fs`live, fs.container
    ensures r == if !IsFile(old(fs.Files())[blockIndex]) then Fatal(NotFile) else
                   WriteVerdict(fs.g, old(fs.D()), old(fs.live)[blockIndex],
                                |old(fs.Files())[blockIndex].content|, offset, |data|)
    ensures r.Ok? ==> data == [] || offset <= |old(fs.Files())[blockIndex].content|
    ensures r.Ok? ==> fs.Valid() && fs.Files() == old(fs.Files())[blockIndex :=
              var f := old(fs.Files())[blockIndex]; f.(content := Splice(f.content, offset, data))]
    ensures r.Ok? ==> fs.live == old(fs.live)[blockIndex :=
              WrittenChain(fs.g, old(fs.D()), old(fs.live)[blockIndex],
                           |old(fs.Files())[blockIndex].content|, offset, |data|)]
    ensures r.Ok? && old(Pristine(fs.g, fs.D(), fs.live)) ==> Pristine(fs.g, fs.D(), fs.live)
    ensures r.Fatal? ==> fs.live == old(fs.live) && fs.SuperblockOk()
    ensures r.Fatal? ==> if r.error == NotFile || r.error == InvalidPosition then fs.D() == old(fs.D())
                         else r.error == FullError(fs.g) && Damaged(fs.g, old(fs.D()), fs.live, fs.D(), blockIndex)
  {
    hide View, FsDescriptors.Byte, Wf, FilesOf, Pristine, WriteVerdict, WrittenChain, Splice, Linked, Space, Moved,
      Damaged;
    WfFile(fs.g, fs.D(), fs.live, blockIndex);
    FileSpace(fs.g, fs.D(), fs.live, blockIndex);
    if fs.Byte(blockIndex, FLAGS_AT) & FLG_FILE == 0 {
      return Fatal(NotFile);
    }
    r := WriteFileUnchecked(fs, blockIndex, offset, data);
  }

  method AppendFileUnchecked(fs: FsDescriptors, blockIndex: nat, data: seq<byte>) returns (r: Result<()>)
    requires fs.Valid() && blockIndex in fs.live && |data| < HALF
    modifies fs`live, fs.container
    ensures r.Fatal? <==> data != [] && !Fits(fs.g, old(fs.D()), old(fs.live)[blockIndex],
                                              |old(fs.Files())[blockIndex].content| + |data|)
    ensures r.Fatal? ==> r.error == FullError(fs.g)
    ensures r.Ok? ==> fs.Valid() && fs.Files() == old(fs.Files())[blockIndex :=
              var f := old(fs.Files())[blockIndex]; f.(content := f.content + data)]
    ensures r.Ok? ==> fs.live == old(fs.live)[blockIndex :=
              WrittenChain(fs.g, old(fs.D()), old(fs.live)[blockIndex],
                           |old(fs.Files())[blockIndex].content|, |old(fs.Files())[blockIndex].content|, |data|)]
    ensures r.Ok? ==> Moved(fs.g, old(fs.D()), old(fs.live), fs.D(), blockIndex, fs.live[blockIndex])
    ensures r.Ok? && old(Pristine(fs.g, fs.D(), fs.live)) ==> Pristine(fs.g, fs.D(), fs.live)
    ensures r.Fatal? ==> fs.live == old(fs.live) && fs.SuperblockOk()
    ensures r.Fatal? ==> Damaged(fs.g, old(fs.D()), fs.live, fs.D(), blockIndex)
  {
    hide View, FsDescriptors.Word, Wf, FilesOf, Pristine, Fits, WrittenChain, Splice, Linked, Space, Moved, Damaged;
    WfFile(fs.g, fs.D(), fs.live, blockIndex);
    FileSpace(fs.g, fs.D(), fs.live, blockIndex);
    ghost var f := fs.Files()[blockIndex];
    SpliceAtEnd(f.content, data);
    r := WriteFileUnchecked(fs, blockIndex, fs.Word(blockIndex, SIZE_AT), data);
  }

  lemma SpliceAtEnd(content: seq<byte>, data: seq<byte>)
    ensures Splice(content, |content|, data) == content + data
  {
  }

  lemma SpliceNothing(content: seq<byte>, offset: nat)
    ensures Splice(content, offset, []) == content
  {
  }

  // ---- init_new_file ----

  ghost function InitBlock(g: Geometry, d: Disk, b: int, flags: byte): Disk
    requires g.Ok() && d.Shaped(g) && g.IsData(b)
  {
    d.Write(g, b, SIZE_AT, EncodeWord(0))
     .Write(g, b, 0, EncodeWord(0))
     .Write(g, b, LINKS_AT, Encode(0, 4))
     .Write(g, b, g.lastAt, EncodeWord(b))
     .Write(g, b, FLAGS_AT, [flags])
  }

  lemma FlagsWrite(g: Geometry, d: Disk, b: int, flags: byte)
    requires g.Ok() && d.Shaped(g) && b in d.blocks
    ensures var e := d.Write(g, b, FLAGS_AT, [flags]);
      && e.Flags(g, b) == flags && e.Cont(g, b) == d.Cont(g, b) && e.Size(g, b) == d.Size(g, b)
      && e.Last(g, b) == d.Last(g, b)
  {
    WriteOtherWord(g, d, b, FLAGS_AT, [flags], 0);
    WriteOtherWord(g, d, b, FLAGS_AT, [flags], SIZE_AT);
    WriteOtherWord(g, d, b, FLAGS_AT, [flags], g.lastAt);
    PatchSelf(d.blocks[b], FLAGS_AT, [flags]);
  }

  lemma LinksWrite(g: Geometry, d: Disk, b: int)
    requires g.Ok() && d.Shaped(g) && b in d.blocks
    ensures var e := d.Write(g, b, LINKS_AT, Encode(0, 4));
      e.Cont(g, b) == d.Cont(g, b) && e.Size(g, b) == d.Size(g, b) && e.Last(g, b) == d.Last(g, b)
  {
    WriteOtherWord(g, d, b, LINKS_AT, Encode(0, 4), 0);
    WriteOtherWord(g, d, b, LINKS_AT, Encode(0, 4), SIZE_AT);
    WriteOtherWord(g, d, b, LINKS_AT, Encode(0, 4), g.lastAt);
  }

  lemma InitHeader(g: Geometry, d: Disk, b: int, flags: byte)
    requires g.Ok() && d.Shaped(g) && g.IsData(b) && b < LIMIT
    ensures var e := InitBlock(g, d, b, flags);
      && e.Shaped(g) && SameOutside(d, e, {b}) && e.used == d.used
      && e.Size(g, b) == 0 && e.Cont(g, b) == 0 && e.Last(g, b) == b && e.Flags(g, b) == flags
  {
    hide Patch, Encode;
    var d1 := d.Write(g, b, SIZE_AT, EncodeWord(0));
    var d2 := d1.Write(g, b, 0, EncodeWord(0));
    var d3 := d2.Write(g, b, LINKS_AT, Encode(0, 4));
    var d4 := d3.Write(g, b, g.lastAt, EncodeWord(b));
    StoreSize(g, d, b, 0);
    StoreCont(g, d1, b, 0);
    LinksWrite(g, d2, b);
    StoreLast(g, d3, b, b);
    FlagsWrite(g, d4, b, flags);
  }

  lemma LiveUsed(g: Geometry, d: Disk, live: map<int, seq<int>>, b: int)
    requires g.Ok() && Wf(g, d, live)
    ensures b in live ==> b in d.used
  {
    hide Wf;
    if b in live {
      WfFile(g, d, live, b);
      assert live[b][0] in Set(live[b]);
    }
  }

  lemma InitFileOk(g: Geometry, e: Disk, b: int)
    requires g.Ok() && e.Shaped(g) && b in e.blocks && e.Size(g, b) == 0 && e.Last(g, b) == b
    ensures FileOk(g, e, b, [b])
  {
    BlocksRequiredIs(g, 0, 1);
  }

  lemma InitReplaces(g: Geometry, d: Disk, live: map<int, seq<int>>, b: int, flags: byte)
    requires g.Ok() && Wf(g, d, live) && g.IsData(b) && b !in d.used && b < LIMIT && d.Mark(b, true).Shaped(g)
    ensures b !in live && Replaces(g, d, live, InitBlock(g, d.Mark(b, true), b, flags), b, [b])
  {
    hide Wf, FilesOf, InitBlock, FileOk;
    var e := InitBlock(g, d.Mark(b, true), b, flags);
    LiveUsed(g, d, live, b);
    InitHeader(g, d.Mark(b, true), b, flags);
    WfShaped(g, d, live);
    InitFileOk(g, e, b);
    OneBlock(d.used, b);
  }

  lemma OneBlock(used: set<int>, b: int)
    ensures Set([]) + Set([b]) == {b} && used - Set([]) + Set([b]) == used + {b}
  {
  }

  /** A new file is empty and sits alone on its block. */
  lemma InitFile(g: Geometry, d: Disk, live: map<int, seq<int>>, b: int, flags: byte)
    requires g.Ok() && Wf(g, d, live) && g.IsData(b) && b !in d.used && b < LIMIT && d.Mark(b, true).Shaped(g)
    ensures b !in live
    ensures var e := InitBlock(g, d.Mark(b, true), b, flags);
      && e.super == d.super && Wf(g, e, live[b := [b]]) && Terminated(g, e, [b])
      && FilesOf(g, e, live[b := [b]]) == FilesOf(g, d, live)[b := File(flags, [])]
  {
    hide Wf, FilesOf, InitBlock, Replaces, FileOk, Linked, Space;
    InitHeader(g, d.Mark(b, true), b, flags);
    InitReplaces(g, d, live, b, flags);
    ReplaceWf(g, d, live, InitBlock(g, d.Mark(b, true), b, flags), b, [b]);
  }

  lemma InitTerminated(g: Geometry, d: Disk, live: map<int, seq<int>>, e: Disk, b: int)
    requires g.Ok() && Wf(g, d, live) && b !in d.used && b !in live && e.Shaped(g) && SameOutside(d, e, {b})
    ensures forall k :: k in live ==> Terminated(g, e, live[k]) == Terminated(g, d, live[k])
  {
    hide Wf, FileOk, FileAt, Linked, Terminated, SameOutside;
    WfShaped(g, d, live);
    forall k | k in live
      ensures Terminated(g, e, live[k]) == Terminated(g, d, live[k])
    {
      OtherFile(g, d, live, e, b, {b}, k);
    }
  }

  lemma InitPristine(g: Geometry, d: Disk, live: map<int, seq<int>>, b: int, flags: byte)
    requires g.Ok() && Wf(g, d, live) && g.IsData(b) && b !in d.used && b < LIMIT && d.Mark(b, true).Shaped(g)
    requires Pristine(g, d, live) && b == FirstFree(d.used, 0, g.blocksCount) && b !in live
    requires Wf(g, InitBlock(g, d.Mark(b, true), b, flags), live[b := [b]])
    requires Terminated(g, InitBlock(g, d.Mark(b, true), b, flags), [b])
    ensures Pristine(g, InitBlock(g, d.Mark(b, true), b, flags), live[b := [b]])
  {
    hide Wf, InitBlock, FileOk, Linked, Terminated, InOrder, FirstFree;
    var e := InitBlock(g, d.Mark(b, true), b, flags);
    InitHeader(g, d.Mark(b, true), b, flags);
    WfShaped(g, d, live);
    InitTerminated(g, d, live, e, b);
    InitInOrder(d.used, live, b, g.blocksCount);
    forall x | x in e.blocks && x !in e.used
      ensures e.Cont(g, x) == 0
    {
      assert x != b && e.blocks[x] == d.blocks[x] && d.Cont(g, x) == 0;
    }
    var more := live[b := [b]];
    forall k | k in more
      ensures Terminated(g, e, more[k])
    {
      if k != b { assert k in live; }
    }
  }

  lemma InitInOrder(used: set<int>, live: map<int, seq<int>>, b: int, n: nat)
    requires InOrder(used, live) && b == FirstFree(used, 0, n) < n
    ensures InOrder(used + {b}, live[b := [b]])
  {
    hide FirstFree;
    FirstFreeAbove(|used|, n);
    assert used + {b} == Below(|used| + 1);
  }

  /** Creates an empty file on the least free block; fails exactly when there is none. */
  method InitNewFile(fs: FsDescriptors, flags: byte) returns (r: Result<nat>)
    requires fs.Valid()
    modifies fs`live, fs.container
    ensures r.Fatal? <==> |old(fs.D()).used| == fs.g.blocksCount
    ensures r.Fatal? ==> r.error == FullError(fs.g) && fs.Valid() && fs.D() == old(fs.D()) && fs.live == old(fs.live)
    ensures r.Ok? ==> r.value == FirstFree(old(fs.D()).used, 0, fs.g.blocksCount) && r.value !in old(fs.live)
    ensures r.Ok? ==> fs.Valid() && fs.live == old(fs.live)[r.value := [r.value]]
    ensures r.Ok? ==> fs.Files() == old(fs.Files())[r.value := File(flags, [])]
    ensures r.Ok? ==> fs.D().used == old(fs.D()).used + {r.value}
    ensures r.Ok? ==> SameOutside(old(fs.D()), fs.D(), {r.value}) && fs.IsTerminated(r.value)
    ensures r.Ok? && old(Pristine(fs.g, fs.D(), fs.live)) ==> Pristine(fs.g, fs.D(), fs.live)
  {
    hide View, FsDescriptors.Word, Wf, FilesOf, Pristine, FirstFree, Below, Patch, Terminated;
    ghost var g, d, live := fs.g, fs.D(), fs.live;
    WfShaped(g, d, live);
    var blockIndex :- AllocateBlock(fs);
    FreeIsData(g, d.used, blockIndex);
    CountBelowBase(g, g.blocksCount);
    InitFile(g, d, live, blockIndex, flags);
    InitHeader(g, d.Mark(blockIndex, true), blockIndex, flags);
    if Pristine(g, d, live) { InitPristine(g, d, live, blockIndex, flags); }
    fs.StoreWord(blockIndex, SIZE_AT, 0);
    fs.StoreWord(blockIndex, 0, 0);
    fs.Store(blockIndex, LINKS_AT, Encode(0, 4));
    fs.StoreWord(blockIndex, fs.g.lastAt, blockIndex);
    fs.Store(blockIndex, FLAGS_AT, [flags]);
    fs.live := live[blockIndex := [blockIndex]];
    return Ok(blockIndex);
  }

  lemma FreeIsData(g: Geometry, used: set<int>, b: int)
    requires g.Ok() && Meta(g) <= used && 0 <= b < g.blocksCount && b !in used
    ensures g.IsData(b)
  {
  }
}
