/** Making a file system on a container and opening one again. */
module Format {
  import opened Bytes
  import opened Layout
  import opened Disk
  import opened Chains
  import opened Results
  import opened Image
  import opened Allocator
  import opened Resize
  import opened Truncate
  import opened FileIo

  /** Writing only table bytes moves neither superblock nor data blocks. */
  lemma TableWrite(g: Geometry, m: seq<byte>, n: seq<byte>)
    requires g.Ok() && |m| == |n| == g.Base(g.blocksCount)
    requires g.superSize + g.TableLen() <= |m| && n[..g.superSize] == m[..g.superSize]
    requires n[g.superSize + g.TableLen()..] == m[g.superSize + g.TableLen()..]
    ensures View(g, n).super == View(g, m).super && View(g, n).blocks == View(g, m).blocks
  {
    MetaExact(g);
    var t := g.superSize + g.TableLen();
    forall b | g.IsData(b)
      ensures BlockBytes(g, n, b) == BlockBytes(g, m, b)
    {
      BaseMonotone(g, g.MetaPages(), b);
      BaseOrder(g, b, g.blocksCount);
      SuffixSlice(m, n, t, g.Base(b), g.Base(b) + g.blockSize);
    }
  }

  lemma SuffixSlice(m: seq<byte>, n: seq<byte>, t: nat, lo: nat, hi: nat)
    requires t <= lo <= hi <= |m| == |n| && n[t..] == m[t..]
    ensures n[lo..hi] == m[lo..hi]
  {
    SliceOfDrop(n, t, lo - t, hi - lo);
    SliceOfDrop(m, t, lo - t, hi - lo);
  }

  lemma ClearedTable(g: Geometry, n: seq<byte>)
    requires g.Ok() && |n| == g.Base(g.blocksCount) && g.superSize + g.TableLen() <= |n|
    requires forall i :: g.superSize <= i < g.superSize + g.TableLen() ==> n[i] == 0
    ensures View(g, n).used == {}
  {
    forall i | 0 <= i < 8 * g.TableLen()
      ensures !TableBit(g, n, i)
    {
      assert n[g.superSize + i / 8] == 0;
    }
  }

  /** memset on the lookup table. */
  method ClearTable(fs: FsDescriptors)
    requires fs.Mapped()
    modifies fs.container
    ensures fs.D() == old(fs.D()).(used := {})
  {
    hide View;
    ghost var g, m := fs.g, fs.container[..];
    MetaExact(g);
    BaseMonotone(g, g.MetaPages(), g.blocksCount);
    forall i | fs.g.superSize <= i < fs.g.superSize + fs.g.TableLen() {
      fs.container[i] := 0;
    }
    ghost var n := fs.container[..];
    TableWrite(g, m, n);
    ClearedTable(g, n);
  }

  /** Marks the metadata pages in a cleared table. Their number never exceeds the number of blocks,
      so marking never dies. */
  method MarkMetadata(fs: FsDescriptors)
    requires fs.Mapped()
    modifies fs.container
    ensures fs.D() == old(fs.D()).(used := Meta(fs.g))
  {
    hide View;
    ClearTable(fs);
    ghost var d := fs.D();
    MetaExact(fs.g);
    var metadataSize := fs.g.superSize + fs.g.TableLen();
    var metadataPages := (metadataSize + fs.g.blockSize - 1) / fs.g.blockSize;
    PagesForIsCeil(fs.g, metadataSize);
    var i := 0;
    while i < metadataPages
      invariant i <= metadataPages
      invariant fs.D() == d.(used := Below(i))
    {
      var marked := MarkBlockInLookupTable(fs, i, true);
      assert Below(i) + {i} == Below(i + 1);
      i := i + 1;
    }
  }

  lemma SuperFits(g: Geometry)
    requires g.Ok()
    ensures SUPER_USED <= g.superSize <= g.Base(g.blocksCount)
  {
    MetaExact(g);
    BaseMonotone(g, g.MetaPages(), g.blocksCount);
  }

  /** The platforms are the same exactly if all five numbers are: the sizes of a size_t, of the superblock, of a
      block's and of a file's header, and of a directory item. */
  ghost predicate SamePlatform(g: Geometry, s: seq<byte>)
    requires |s| == 20
  {
    && Decode(s[0..4]) == 8 && Decode(s[4..8]) == g.superSize && Decode(s[8..12]) == 8
    && Decode(s[12..16]) == g.mainSize && Decode(s[16..20]) == 264
  }

  lemma PlatformTells(g: Geometry, s: seq<byte>)
    requires |s| == 20 && g.superSize < 0x1_0000_0000 && g.mainSize < 0x1_0000_0000
    ensures s == PlatformValues(g) <==> SamePlatform(g, s)
  {
    hide Encode, Decode;
    assert Pow256(4) == 0x1_0000_0000;
    FiveFields(Encode(WORD, 4), Encode(g.superSize, 4), Encode(HEADER, 4), Encode(g.mainSize, 4), Encode(ITEM_SIZE, 4));
    FieldTells(s[0..4], WORD);
    FieldTells(s[4..8], g.superSize);
    FieldTells(s[8..12], HEADER);
    FieldTells(s[12..16], g.mainSize);
    FieldTells(s[16..20], ITEM_SIZE);
    assert s == s[0..4] + s[4..8] + s[8..12] + s[12..16] + s[16..20];
  }

  lemma FiveFields(a: seq<byte>, b: seq<byte>, c: seq<byte>, d: seq<byte>, e: seq<byte>)
    requires |a| == |b| == |c| == |d| == |e| == 4
    ensures var v := a + b + c + d + e;
      v[0..4] == a && v[4..8] == b && v[8..12] == c && v[12..16] == d && v[16..20] == e
  {
  }

  lemma FieldTells(s: seq<byte>, n: nat)
    requires |s| == 4 && n < Pow256(4)
    ensures s == Encode(n, 4) <==> Decode(s) == n
  {
    hide Encode, Decode;
    DecodeEncode(n, 4);
    EncodeDecode(s);
  }

  /** Binds a container to its geometry; with clean set, makes its table say that the metadata
      pages, and nothing else, are used. Containers of other platforms are refused. */
  method PrepareDescriptors(g: Geometry, container: array<byte>, clean: bool) returns (r: Result<FsDescriptors>)
    requires g.Ok() && container.Length == g.Base(g.blocksCount) && SUPER_USED <= container.Length
    modifies container
    ensures r.Fatal? <==> old(container[2 * WORD..SUPER_USED]) != PlatformValues(g)
    ensures g.superSize < 0x1_0000_0000 && g.mainSize < 0x1_0000_0000 ==>
              (r.Fatal? <==> !SamePlatform(g, old(container[16..36])))
    ensures r.Fatal? ==> r.error == Incompatible
    ensures r.Fatal? || !clean ==> container[..] == old(container[..])
    ensures r.Ok? ==> fresh(r.value) && r.value.g == g && r.value.container == container && r.value.live == map[]
    ensures r.Ok? ==> r.value.D() == if clean then View(g, old(container[..])).(used := Meta(g))
                                     else View(g, old(container[..]))
  {
    hide View, PlatformValues, SamePlatform;
    if g.superSize < 0x1_0000_0000 && g.mainSize < 0x1_0000_0000 {
      PlatformTells(g, container[16..36]);
    }
    if container[2 * WORD..SUPER_USED] != PlatformValues(g) {
      return Fatal(Incompatible);
    }
    var fs := new FsDescriptors(g, container);
    if clean {
      MarkMetadata(fs);
    }
    return Ok(fs);
  }

  // ---- init_fs and open_fs ----

  /** The geometry init_fs gives a container of at least size bytes. */
  function InitGeometry(size: nat, pageSize: nat, superSize: nat, mainSize: nat, lastAt: nat): Geometry
    requires 0 < pageSize
  {
    var pagesCount := ((if size < superSize then superSize else size) + pageSize - 1) / pageSize;
    Geometry(pageSize, pagesCount, superSize, mainSize, lastAt)
  }

  /** Rounding up to whole pages: room for size bytes and for the superblock, and not a page more. */
  lemma InitGeometryFits(size: nat, pageSize: nat, superSize: nat, mainSize: nat, lastAt: nat)
    requires 0 < superSize && 0 < pageSize
    ensures var g := InitGeometry(size, pageSize, superSize, mainSize, lastAt);
      && size <= g.Base(g.blocksCount) && superSize <= g.Base(g.blocksCount) && 0 < g.blocksCount
      && (g.Base(g.blocksCount - 1) < size || g.Base(g.blocksCount - 1) < superSize)
  {
    var g := InitGeometry(size, pageSize, superSize, mainSize, lastAt);
    var n := if size < superSize then superSize else size;
    PagesForIsCeil(g, n);
    PagesForExact(g, n);
  }

  /** What page and struct sizes have to do with each other on every platform. */
  predicate PlatformOk(pageSize: nat, superSize: nat, mainSize: nat, lastAt: nat) {
    SUPER_USED <= superSize < pageSize && FLAGS_AT < lastAt && lastAt + WORD <= mainSize < pageSize
  }

  lemma InitGeometryOk(size: nat, pageSize: nat, superSize: nat, mainSize: nat, lastAt: nat)
    requires PlatformOk(pageSize, superSize, mainSize, lastAt)
    ensures var g := InitGeometry(size, pageSize, superSize, mainSize, lastAt);
      g.Ok() <==> g.Base(g.blocksCount) < HALF
  {
    InitGeometryFits(size, pageSize, superSize, mainSize, lastAt);
  }

  lemma PrefixView(g: Geometry, m: seq<byte>, x: seq<byte>)
    requires g.Ok() && |m| == g.Base(g.blocksCount) && |x| <= g.superSize
    ensures |x| <= |m|
    ensures View(g, Patch(m, 0, x)).blocks == View(g, m).blocks
    ensures |View(g, Patch(m, 0, x)).super| >= |x| && View(g, Patch(m, 0, x)).super[..|x|] == x
  {
    MetaExact(g);
    SuperFits(g);
    var n := Patch(m, 0, x);
    forall b | g.IsData(b)
      ensures BlockBytes(g, n, b) == BlockBytes(g, m, b)
    {
      BaseMonotone(g, g.MetaPages(), b);
      BaseOrder(g, b, g.blocksCount);
      PatchDisjoint(m, 0, x, g.Base(b), g.Base(b) + g.blockSize);
    }
  }

  /** A disk with nothing but used metadata pages is consistent and has no files. */
  lemma EmptyWf(g: Geometry, d: Disk)
    requires g.Ok() && d.Shaped(g) && d.used == Meta(g)
    ensures Wf(g, d, map[]) && FilesOf(g, d, map[]) == map[]
  {
    NoneOwned(g.blocksCount);
  }

  lemma FirstFreeMeta(g: Geometry)
    requires g.Ok()
    ensures FirstFree(Meta(g), 0, g.blocksCount) == g.MetaPages()
    ensures |Meta(g)| == g.MetaPages() <= g.blocksCount
  {
    MetaExact(g);
    FirstFreeLeast(Meta(g), 0, g.blocksCount, g.MetaPages());
  }

  /** memcpy of the superblock into the start of the container. */
  method StoreSuperblock(g: Geometry, container: array<byte>)
    requires g.Ok() && container.Length == g.Base(g.blocksCount)
    modifies container
    ensures SUPER_USED <= container.Length && container[..] == Patch(old(container[..]), 0, SuperblockBytes(g))
  {
    hide SuperblockBytes;
    SuperFits(g);
    var s := SuperblockBytes(g);
    ghost var m := container[..];
    forall i | 0 <= i < |s| {
      container[i] := s[i];
    }
    assert container[..] == Patch(m, 0, s);
  }

  lemma PlatformInside(g: Geometry)
    ensures SuperblockBytes(g)[2 * WORD..SUPER_USED] == PlatformValues(g)
  {
  }

  /** Makes an empty file system: metadata pages, then an empty root directory right behind them.
      It fails exactly when the metadata pages leave no block for the root. On a container of
      zeroes the result is pristine. */
  method InitFs(g: Geometry, container: array<byte>) returns (r: Result<FsDescriptors>)
    requires g.Ok() && container.Length == g.Base(g.blocksCount)
    modifies container
    ensures r.Fatal? <==> g.MetaPages() == g.blocksCount
    ensures r.Fatal? ==> r.error == FullError(g)
    ensures r.Ok? ==> fresh(r.value) && r.value.Valid() && r.value.g == g && r.value.container == container
    ensures r.Ok? ==> r.value.Files() == map[g.MetaPages() := File(FLG_DIRECTORY, [])]
    ensures r.Ok? ==> r.value.live == map[g.MetaPages() := [g.MetaPages()]]
    ensures (r.Ok? && forall i :: 0 <= i < container.Length ==> old(container[i]) == 0) ==>
              Pristine(g, r.value.D(), r.value.live)
  {
    hide View, Wf, FilesOf, SuperblockBytes, Pristine;
    ghost var m := container[..];
    PrefixView(g, m, SuperblockBytes(g));
    StoreSuperblock(g, container);
    PlatformInside(g);
    PatchSelf(m, 0, SuperblockBytes(g));
    assert container[2 * WORD..SUPER_USED] == container[..][0..SUPER_USED][2 * WORD..SUPER_USED];
    var prepared := PrepareDescriptors(g, container, true);
    assert prepared.Ok?;
    var fs := prepared.value;
    EmptyWf(g, fs.D());
    FirstFreeMeta(g);
    ghost var zeroes := forall i :: 0 <= i < |m| ==> m[i] == 0;
    if zeroes { ZeroPristine(g, m, fs.D()); }
    var rootInode :- InitNewFile(fs, FLG_DIRECTORY);
    if rootInode != fs.g.MetaPages() {
      return Fatal(Internal);
    }
    return Ok(fs);
  }

  /** init_fs from the size on: the container has been mapped with the rounded size. */
  method InitSized(size: nat, pageSize: nat, superSize: nat, mainSize: nat, lastAt: nat, container: array<byte>)
      returns (r: Result<FsDescriptors>)
    requires PlatformOk(pageSize, superSize, mainSize, lastAt) && container.Length < HALF
    requires
      var g := InitGeometry(size, pageSize, superSize, mainSize, lastAt);
      container.Length == g.Base(g.blocksCount)
    modifies container
    ensures var g := InitGeometry(size, pageSize, superSize, mainSize, lastAt);
      && g.Ok() && size <= container.Length
      && (r.Fatal? <==> g.MetaPages() == g.blocksCount)
      && (r.Ok? ==> fresh(r.value) && r.value.Valid() && r.value.g == g && r.value.container == container)
      && (r.Ok? ==> r.value.Files() == map[g.MetaPages() := File(FLG_DIRECTORY, [])])
  {
    hide View, Wf, FilesOf, Pristine, InitGeometry;
    InitGeometryOk(size, pageSize, superSize, mainSize, lastAt);
    InitGeometryFits(size, pageSize, superSize, mainSize, lastAt);
    r := InitFs(InitGeometry(size, pageSize, superSize, mainSize, lastAt), container);
  }

  lemma ZeroPristine(g: Geometry, m: seq<byte>, d: Disk)
    requires g.Ok() && |m| == g.Base(g.blocksCount) && d.Shaped(g) && d.blocks == View(g, m).blocks && Wf(g, d, map[])
    requires forall i :: 0 <= i < |m| ==> m[i] == 0
    ensures Pristine(g, d, map[])
  {
    hide View, Wf, Disk.Cont;
    FreshInOrder(g, d);
    forall b | b in d.blocks
      ensures d.Cont(g, b) == 0
    {
      ZeroCont(g, m, d, b);
    }
  }

  lemma FreshInOrder(g: Geometry, d: Disk)
    requires g.Ok() && Wf(g, d, map[])
    ensures InOrder(d.used, map[])
  {
    NoneOwned(g.blocksCount);
    assert d.used == Meta(g) == Below(g.MetaPages());
  }

  lemma ZeroCont(g: Geometry, m: seq<byte>, d: Disk, b: int)
    requires g.Ok() && |m| == g.Base(g.blocksCount) && d.Shaped(g) && d.blocks == View(g, m).blocks
    requires b in d.blocks && forall i :: 0 <= i < |m| ==> m[i] == 0
    ensures d.Cont(g, b) == 0
  {
    ViewSlice(g, m, b, 0, WORD);
    ZeroWord(d.blocks[b][0..WORD]);
  }

  lemma {:induction false} ZeroWord(s: seq<byte>)
    requires forall i :: 0 <= i < |s| ==> s[i] == 0
    ensures Decode(s) == 0
  {
    if s != [] { ZeroWord(s[1..]); }
  }

  /** What the superblock says, given the struct sizes of the platform. */
  function StoredGeometry(m: seq<byte>, superSize: nat, mainSize: nat, lastAt: nat): Geometry
    requires SUPER_USED <= |m|
  {
    Geometry(Decode(m[..WORD]), Decode(m[WORD..2 * WORD]), superSize, mainSize, lastAt)
  }

  lemma StoredGeometryBack(g: Geometry, m: seq<byte>)
    requires g.Ok() && SUPER_USED <= |m| && m[..SUPER_USED] == SuperblockBytes(g)
    ensures StoredGeometry(m, g.superSize, g.mainSize, g.lastAt) == g
    ensures m[2 * WORD..SUPER_USED] == PlatformValues(g)
  {
    hide PlatformValues, Encode, Decode;
    BaseMonotone(g, 1, g.blocksCount);
    assert g.Base(1) == g.Base(0) + g.blockSize;
    CountBelowBase(g, g.blocksCount);
    WordRoundTrip(g.blockSize);
    WordRoundTrip(g.blocksCount);
    var s := SuperblockBytes(g);
    assert m[..WORD] == m[..SUPER_USED][..WORD] == s[..WORD] == EncodeWord(g.blockSize);
    assert m[WORD..2 * WORD] == m[..SUPER_USED][WORD..2 * WORD] == s[WORD..2 * WORD] == EncodeWord(g.blocksCount);
    assert m[2 * WORD..SUPER_USED] == m[..SUPER_USED][2 * WORD..] == s[2 * WORD..] == PlatformValues(g);
  }

  /** Opening the container of a file system, with the block size and count its superblock tells,
      gives the same files again and changes no byte. */
  method OpenFs(container: array<byte>, superSize: nat, mainSize: nat, lastAt: nat, ghost prior: FsDescriptors)
      returns (r: Result<FsDescriptors>)
    requires prior.Valid() && prior.container == container
    requires prior.g.superSize == superSize && prior.g.mainSize == mainSize && prior.g.lastAt == lastAt
    modifies container
    ensures container[..] == old(container[..])
    ensures r.Ok? && fresh(r.value) && r.value.Valid() && r.value.container == container && r.value.g == prior.g
    ensures r.value.live == old(prior.live) && r.value.Files() == old(prior.Files())
  {
    hide View, Wf, FilesOf, SuperblockBytes, Pristine, PlatformValues, StoredGeometry;
    SuperPrefix(prior.g, container[..]);
    StoredGeometryBack(prior.g, container[..]);
    var g := StoredGeometry(container[..], superSize, mainSize, lastAt);
    assert container[2 * WORD..SUPER_USED] == container[..][2 * WORD..SUPER_USED];
    var prepared := PrepareDescriptors(g, container, false);
    assert prepared.Ok?;
    var fs := prepared.value;
    fs.live := prior.live;
    return Ok(fs);
  }

  lemma SuperPrefix(g: Geometry, m: seq<byte>)
    requires g.Ok() && |m| == g.Base(g.blocksCount)
    ensures SUPER_USED <= |m| && View(g, m).super[..SUPER_USED] == m[..SUPER_USED]
  {
    SuperFits(g);
    assert m[..g.superSize][..SUPER_USED] == m[..SUPER_USED];
  }
}
