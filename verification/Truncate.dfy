/** truncate_file and purge_blocks. */
module Truncate {
  import opened Bytes
  import opened Layout
  import opened Disk
  import opened Chains
  import opened Results
  import opened Image
  import opened Allocator
  import opened Resize

  /** Clears the bits of a null-terminated chain and touches nothing else. Every block it visits is
      a data block, so get_inode never runs into its range check. */
  method PurgeBlocks(fs: FsDescriptors, blockIndex: nat, ghost rest: seq<int>) returns (r: Result<()>)
    requires fs.Mapped()
    requires if rest == [] then blockIndex == 0 else
               Linked(fs.g, fs.D(), rest) && rest[0] == blockIndex && Terminated(fs.g, fs.D(), rest)
    modifies fs.container
    ensures r.Ok?
    ensures fs.D() == old(fs.D()).(used := old(fs.D()).used - Set(rest))
  {
    hide View, FsDescriptors.Word;
    ghost var d := fs.D();
    MetaExact(fs.g);
    assert d.used - Set(rest[..0]) == d.used;
    var b := blockIndex;
    ghost var i := 0;
    while b != 0
      invariant i <= |rest| && b == if i < |rest| then rest[i] else 0
      invariant fs.D() == d.(used := d.used - Set(rest[..i]))
      decreases |rest| - i
    {
      var marked := MarkBlockInLookupTable(fs, b, false);
      assert marked.Ok?;
      assert d.Cont(fs.g, rest[i]) == if i + 1 < |rest| then rest[i + 1] else 0;
      assert rest[..i + 1] == rest[..i] + [rest[i]];
      assert Set(rest[..i + 1]) == Set(rest[..i]) + {rest[i]};
      b := fs.Word(b, 0);
      i := i + 1;
    }
    assert i == |rest| && rest[..i] == rest;
    return Ok(());
  }

  lemma GrowingSets(g: Geometry, d: Disk, c: seq<int>, e: Disk, cur: seq<int>)
    requires g.Ok() && d.Shaped(g) && GrowingChain(g, d, c, e, cur)
    requires d.used <= Below(g.blocksCount) && Meta(g) <= d.used
    ensures e.used <= Below(g.blocksCount)
    ensures forall b :: 0 <= b < g.blocksCount && b !in e.used ==> g.IsData(b)
    ensures forall x :: x in Set(cur) ==> x in c || x !in d.used
  {
    hide Fresh, SameOutside;
    assert cur == c + cur[|c|..];
    assert forall x :: x in cur ==> g.IsData(x);
  }

  lemma GrowingUsed(g: Geometry, d: Disk, live: map<int, seq<int>>, e: Disk, cur: seq<int>, h: int, newSize: nat)
    requires g.Ok() && Wf(g, d, live) && h in live && Growing(g, d, live[h], e, cur, newSize)
    ensures e.used <= Below(g.blocksCount)
    ensures forall b :: 0 <= b < g.blocksCount && b !in e.used ==> g.IsData(b)
    ensures forall x :: x in Set(cur) ==> x in live[h] || x !in d.used
  {
    hide Wf, Linked, FileOk, Owned, GrowingChain, Below, Meta;
    WfShaped(g, d, live);
    GrowingSets(g, d, live[h], e, cur);
  }

  /** File k survived the step from d to e. */
  ghost predicate OtherIntact(g: Geometry, d: Disk, live: map<int, seq<int>>, e: Disk, k: int)
    requires g.Ok() && Wf(g, d, live) && k in live
  {
    e.Shaped(g) && FileOk(g, e, k, live[k]) && FileAt(g, e, k, live[k]) == FileAt(g, d, k, live[k])
  }

  /** No chain at all makes h a file of d. */
  ghost predicate Broken(g: Geometry, d: Disk, h: int)
    requires g.Ok() && d.Shaped(g)
  {
    forall c: seq<int> :: !FileOk(g, d, h, c)
  }

  /** What want of space leaves behind: file h is broken, all others are intact. */
  ghost predicate Damaged(g: Geometry, d: Disk, live: map<int, seq<int>>, e: Disk, h: int)
    requires g.Ok() && Wf(g, d, live)
  {
    && e.Shaped(g) && e.super == d.super && Broken(g, e, h) && d.used <= e.used
    && forall k :: k in live && k != h ==> OtherIntact(g, d, live, e, k)
  }

  /** File h is broken on e, and all other files are there. */
  ghost predicate Survive(g: Geometry, files: Files, e: Disk, live: map<int, seq<int>>, h: int)
    requires g.Ok()
  {
    && e.Shaped(g) && Broken(g, e, h) && files.Keys == live.Keys
    && forall k :: k in files && k != h ==> FileOk(g, e, k, live[k]) && FileAt(g, e, k, live[k]) == files[k]
  }

  lemma DamagedSurvive(g: Geometry, d: Disk, live: map<int, seq<int>>, e: Disk, h: int)
    requires g.Ok() && Wf(g, d, live) && Damaged(g, d, live, e, h)
    ensures Survive(g, FilesOf(g, d, live), e, live, h)
  {
    hide FileOk, FileAt, Broken, Linked, Owned, Apart;
    forall k | k in live && k != h
      ensures FileOk(g, e, k, live[k]) && FileAt(g, e, k, live[k]) == FilesOf(g, d, live)[k]
    {
      assert OtherIntact(g, d, live, e, k);
    }
  }

  lemma SurviveOther(g: Geometry, files: Files, e: Disk, live: map<int, seq<int>>, h: int, f: File)
    requires g.Ok() && Survive(g, files, e, live, h) && h in files
    ensures Survive(g, files[h := f], e, live, h)
  {
    hide FileOk, FileAt, Broken;
  }

  /** No bookkeeping makes a damaged disk consistent again: none that has the broken file, and none that
      gives it up and knows no file that was not there. */
  lemma DamagedForGood(g: Geometry, d: Disk, live: map<int, seq<int>>, e: Disk, h: int, m: map<int, seq<int>>)
    requires g.Ok() && Wf(g, d, live) && Damaged(g, d, live, e, h) && h in live
    requires h in m || m.Keys <= live.Keys
    ensures !Wf(g, e, m)
  {
    hide Linked, OtherIntact, Owned, Apart, FileOk;
    if h in m {
      assert !FileOk(g, e, h, m[h]);
    } else {
      HeadLeft(g, d, live, e, h, m);
    }
  }

  /** The first block of a file that is given up stays used, and is nobody's. */
  lemma HeadLeft(g: Geometry, d: Disk, live: map<int, seq<int>>, e: Disk, h: int, m: map<int, seq<int>>)
    requires g.Ok() && Wf(g, d, live) && Damaged(g, d, live, e, h) && h in live
    requires h !in m && m.Keys <= live.Keys
    ensures !Wf(g, e, m)
  {
    hide Linked, FileAt, FileOk, Broken;
    WfFile(g, d, live, h);
    assert h in live[h] && h in Set(live[h]);
    if Wf(g, e, m) {
      DataNotMeta(g, h);
      var k := OwnedWho(m, g.blocksCount, h);
      assert OtherIntact(g, d, live, e, k);
      ChainUnique(g, e, k, m[k], live[k]);
    }
  }

  /** The size is stored and some blocks are linked, but not all: last_inode then names a block in the
      middle of every chain of the right length. */
  lemma ShortChain(g: Geometry, d: Disk, c: seq<int>, e: Disk, cur: seq<int>, newSize: nat)
    requires g.Ok() && d.Shaped(g) && Growing(g, d, c, e, cur, newSize) && |cur| < g.BlocksRequired(newSize)
    requires FileOk(g, d, c[0], c)
    ensures e.Shaped(g) && Broken(g, e, c[0])
  {
    forall k: seq<int>
      ensures !FileOk(g, e, c[0], k)
    {
      if Linked(g, e, k) && k[0] == c[0] && |cur| < |k| {
        LinkedUnique(g, e, cur, k, |c| - 1);
        assert k[|c| - 1] != k[|k| - 1];
      }
    }
  }

  lemma ResizedOthers(g: Geometry, d: Disk, live: map<int, seq<int>>, e: Disk, h: int, newSize: nat)
    requires g.Ok() && Wf(g, d, live) && h in live && Resized(g, d, live, e, h, newSize)
    ensures e.super == d.super
    ensures forall k :: k in live && k != h ==> OtherIntact(g, d, live, e, k)
  {
    hide Linked, SamePayload, Space, FileOk, FileAt, Owned, Fresh, Distinct, ResizedChain;
    var s := Set(live[h]) + Set(ResizedChain(g, d, live[h], newSize));
    OtherFiles(g, d, live, e, h, s);
  }

  lemma GrowingOthers(g: Geometry, d: Disk, live: map<int, seq<int>>, e: Disk, cur: seq<int>, h: int, newSize: nat)
    requires g.Ok() && Wf(g, d, live) && h in live && Growing(g, d, live[h], e, cur, newSize)
    ensures e.super == d.super
    ensures forall k :: k in live && k != h ==> OtherIntact(g, d, live, e, k)
  {
    hide Linked, SamePayload, Space, FileOk, FileAt, Owned, Set, Fresh, Distinct;
    GrowingUsed(g, d, live, e, cur, h, newSize);
    OtherFiles(g, d, live, e, h, Set(cur));
  }

  /** File h went from chain live[h] to chain k: no block outside k changed, and k's tail points where it
      pointed before. */
  ghost predicate Moved(g: Geometry, d: Disk, live: map<int, seq<int>>, e: Disk, h: int, k: seq<int>)
    requires g.Ok() && Wf(g, d, live) && h in live
  {
    && d.Shaped(g) && Replaces(g, d, live, e, h, k) && Aside(g, d, e, k)
  }

  lemma ResizedMoved(g: Geometry, d: Disk, live: map<int, seq<int>>, e: Disk, h: int, newSize: nat)
    requires g.Ok() && Wf(g, d, live) && h in live && Resized(g, d, live, e, h, newSize)
    ensures Moved(g, d, live, e, h, ResizedChain(g, d, live[h], newSize))
  {
    hide Wf, Replaces, Aside, SamePayload;
    WfShaped(g, d, live);
  }

  lemma MovedSelf(g: Geometry, d: Disk, live: map<int, seq<int>>, h: int)
    requires g.Ok() && Wf(g, d, live) && h in live
    ensures Moved(g, d, live, d, h, live[h])
  {
    hide Wf, FileOk, Linked;
    WfShaped(g, d, live);
    WfFile(g, d, live, h);
    assert d.used == d.used - Set(live[h]) + Set(live[h]);
  }

  lemma MovedTwice(g: Geometry, d: Disk, live: map<int, seq<int>>, mid: Disk, h: int, k: seq<int>, e: Disk)
    requires g.Ok() && Wf(g, d, live) && h in live && Moved(g, d, live, mid, h, k)
    requires Wf(g, mid, live[h := k]) && Moved(g, mid, live[h := k], e, h, k)
    ensures Moved(g, d, live, e, h, k)
  {
    hide Wf, FileOk, Linked, Owned, Apart;
    assert ChainOf(live[h := k], h) == k;
    assert mid.used - Set(k) + Set(k) == mid.used;
  }

  /** The other files keep what their chains end in. */
  lemma MovedOthers(g: Geometry, d: Disk, live: map<int, seq<int>>, e: Disk, h: int, k: seq<int>)
    requires g.Ok() && Wf(g, d, live) && h in live && Moved(g, d, live, e, h, k)
    ensures e.Shaped(g) && d.Shaped(g)
    ensures forall j :: j in live && j != h ==> Terminated(g, e, live[j]) == Terminated(g, d, live[j])
  {
    hide Wf, FileOk, FileAt, Linked, Terminated, SameOutside;
    forall j | j in live && j != h
      ensures Terminated(g, e, live[j]) == Terminated(g, d, live[j])
    {
      OtherFile(g, d, live, e, h, Set(k), j);
    }
  }

  /** The free blocks suffice for a file on chain c to have newSize bytes. */
  ghost predicate Fits(g: Geometry, d: Disk, c: seq<int>, newSize: nat)
    requires g.Ok()
  {
    |d.used| + g.BlocksRequired(newSize) <= g.blocksCount + |c|
  }

  /** What running out of blocks reports: see AllocateBlock. */
  ghost function FullError(g: Geometry): Error { if g.blocksCount % 8 == 0 then NoSpace else Internal }

  lemma GrownCount(g: Geometry, d: Disk, c: seq<int>, e: Disk, cur: seq<int>)
    requires g.Ok() && d.Shaped(g) && GrowingChain(g, d, c, e, cur) && Set(c) <= d.used
    ensures |e.used| == |d.used| + |cur| - |c|
  {
    hide Fresh, SameOutside, Linked, Set, Distinct, GrowingChain, Disk.Shaped;
    GrownUsed(g, d, c, e, cur);
    SetSize(cur[|c|..]);
  }

  lemma GrowingMore(g: Geometry, d: Disk, c: seq<int>, e: Disk, cur: seq<int>, newSize: nat)
    requires g.Ok() && d.Shaped(g) && Growing(g, d, c, e, cur, newSize) && Set(c) <= d.used
    ensures d.used <= e.used
  {
    hide GrowingChain;
    GrownUsed(g, d, c, e, cur);
  }

  lemma GrownUsed(g: Geometry, d: Disk, c: seq<int>, e: Disk, cur: seq<int>)
    requires g.Ok() && d.Shaped(g) && GrowingChain(g, d, c, e, cur) && Set(c) <= d.used
    ensures |c| <= |cur| && Distinct(cur[|c|..])
    ensures e.used == d.used + Set(cur[|c|..]) && d.used !! Set(cur[|c|..])
  {
    hide Fresh, SameOutside;
    var f := cur[|c|..];
    assert cur == c + f;
    assert Set(cur) == Set(c) + Set(f);
  }

  /** The extending loop of truncate_file, entered after the new size is stored: count more blocks,
      unless the table runs out of them. */
  method Extend(fs: FsDescriptors, blockIndex: nat, count: nat, ghost d: Disk, ghost h: int, ghost newSize: nat)
      returns (r: Result<nat>, ghost cur: seq<int>)
    requires fs.Mapped() && Wf(fs.g, d, fs.live) && h in fs.live
    requires Growing(fs.g, d, fs.live[h], fs.D(), fs.live[h], newSize)
    requires fs.live[h] != [] && blockIndex == fs.live[h][|fs.live[h]| - 1]
    modifies fs.container
    ensures Growing(fs.g, d, fs.live[h], fs.D(), cur, newSize)
    ensures r.Fatal? <==> fs.g.blocksCount < |d.used| + count
    ensures r.Fatal? ==> r.error == FullError(fs.g) && |cur| < |fs.live[h]| + count
    ensures r.Ok? ==> |cur| == |fs.live[h]| + count && r.value == cur[|cur| - 1]
  {
    hide View, FsDescriptors.Word, Wf, Growing, GrowingChain, Linked, FirstFree, Fresh, Below, Distinct, Set;
    WfShaped(fs.g, d, fs.live);
    ghost var c := fs.live[h];
    var b, i := blockIndex, 0;
    cur := c;
    while i < count
      invariant i <= count && |cur| == |c| + i && b == cur[|cur| - 1]
      invariant Growing(fs.g, d, c, fs.D(), cur, newSize)
    {
      GrowingUsed(fs.g, d, fs.live, fs.D(), cur, h, newSize);
      GrowingCount(fs.g, d, fs.live, fs.D(), cur, h, newSize);
      ghost var e := fs.D();
      var next := AllocateBlock(fs);
      if next.Fatal? {
        return next, cur;
      }
      GrowOne(fs.g, d, fs.live, e, cur, h, newSize, next.value);
      fs.StoreWord(b, 0, next.value);
      cur := cur + [next.value];
      b := next.value;
      i := i + 1;
    }
    GrowingCount(fs.g, d, fs.live, fs.D(), cur, h, newSize);
    return Ok(b), cur;
  }

  lemma GrowingCount(g: Geometry, d: Disk, live: map<int, seq<int>>, e: Disk, cur: seq<int>, h: int, newSize: nat)
    requires g.Ok() && Wf(g, d, live) && h in live && Growing(g, d, live[h], e, cur, newSize)
    ensures |e.used| == |d.used| + |cur| - |live[h]| <= g.blocksCount
    ensures e.Shaped(g) && cur != [] && cur[|cur| - 1] in e.blocks
  {
    hide Wf, Linked, SamePayload, FileOk;
    WfShaped(g, d, live);
    GrowingLinked(g, d, live[h], e, cur, newSize);
    WfFile(g, d, live, h);
    GrownCount(g, d, live[h], e, cur);
    GrowingUsed(g, d, live, e, cur, h, newSize);
    SubsetSize(e.used, Below(g.blocksCount));
  }

  lemma GrowOne(g: Geometry, d: Disk, live: map<int, seq<int>>, e: Disk, cur: seq<int>, h: int, newSize: nat, b: nat)
    requires g.Ok() && Wf(g, d, live) && h in live && Growing(g, d, live[h], e, cur, newSize)
    requires b == FirstFree(e.used, 0, g.blocksCount) < g.blocksCount && b !in e.used
    ensures e.Shaped(g) && Linked(g, e, cur) && g.IsData(b)
    ensures Growing(g, d, live[h], GrownDisk(g, e, cur, b), cur + [b], newSize)
  {
    hide Wf, FirstFree, Fresh, Growing, Linked, Set, Below, GrownDisk;
    WfShaped(g, d, live);
    WfFile(g, d, live, h);
    GrowingUsed(g, d, live, e, cur, h, newSize);
    GrowingLinked(g, d, live[h], e, cur, newSize);
    CountBelowBase(g, g.blocksCount);
    GrowStep(g, d, live[h], e, cur, newSize, b);
  }

  lemma ResizedWf(g: Geometry, d: Disk, live: map<int, seq<int>>, e: Disk, h: int, newSize: nat)
    requires g.Ok() && Wf(g, d, live) && h in live && Resized(g, d, live, e, h, newSize)
    ensures e.super == d.super
    ensures var live' := live[h := ResizedChain(g, d, live[h], newSize)];
      Wf(g, e, live') && FilesOf(g, e, live') == FilesOf(g, d, live)[h := FilesOf(g, e, live')[h]]
  {
    hide Wf, Linked, FileOk, FileAt, Space, SamePayload, ResizedChain;
    ReplaceWf(g, d, live, e, h, ResizedChain(g, d, live[h], newSize));
  }

  lemma FileSpace(g: Geometry, d: Disk, live: map<int, seq<int>>, h: int)
    requires g.Ok() && Wf(g, d, live) && h in live
    ensures d.Shaped(g) && InBlocks(d, live[h]) && h in d.blocks
    ensures d.Size(g, h) <= g.Capacity(|live[h]|) < HALF
    ensures FilesOf(g, d, live)[h] == File(d.Flags(g, h), Space(g, d, live[h])[..d.Size(g, h)])
  {
    SizeBound(g, d, h, live[h]);
  }

  lemma CommonSpace(g: Geometry, d: Disk, e: Disk, c: seq<int>, k: seq<int>, n: nat)
    requires g.Ok() && d.Shaped(g) && e.Shaped(g) && InBlocks(d, c) && InBlocks(e, k) && n <= |c| && n <= |k|
    requires c[..n] == k[..n] && SamePayload(g, d, e, c[..n])
    ensures g.Capacity(n) <= g.Capacity(|c|) && g.Capacity(n) <= g.Capacity(|k|)
    ensures Space(g, e, k)[..g.Capacity(n)] == Space(g, d, c)[..g.Capacity(n)]
  {
    SpacePrefix(g, d, c, n);
    SpacePrefix(g, e, k, n);
    SpaceFrame(g, d, e, c[..n]);
  }

  lemma PrefixOfPrefix(s: seq<byte>, t: seq<byte>, n: nat, m: nat)
    requires m <= n <= |s| && n <= |t| && s[..n] == t[..n]
    ensures s[..m] == t[..m]
  {
    assert s[..m] == s[..n][..m] && t[..m] == t[..n][..m];
  }

  /** Both ways of resizing keep the bytes up to the smaller size. */
  lemma ResizedSpace(g: Geometry, d: Disk, live: map<int, seq<int>>, e: Disk, h: int, newSize: nat)
    requires g.Ok() && Wf(g, d, live) && h in live && Resized(g, d, live, e, h, newSize)
    requires d.Shaped(g) && h in d.blocks && InBlocks(d, live[h]) && e.Shaped(g)
    ensures var k := ResizedChain(g, d, live[h], newSize);
      && InBlocks(e, k) && d.Size(g, h) <= g.Capacity(|live[h]|) && newSize <= g.Capacity(|k|)
      && var m := Min(d.Size(g, h), newSize);
      && Space(g, e, k)[..m] == Space(g, d, live[h])[..m]
  {
    hide Wf, Linked, SamePayload, Space, ResizedChain, SameOutside, Fresh;
    var c, k := live[h], ResizedChain(g, d, live[h], newSize);
    WfFile(g, d, live, h);
    LinkedBasics(g, e, k);
    BlocksRequiredExact(g, newSize);
    BlocksRequiredExact(g, d.Size(g, h));
    ResizedPrefix(g, d, c, newSize);
    var n := |Shorter(c, k)|;
    assert c[..n] == Shorter(c, k) == k[..n];
    CommonSpace(g, d, e, c, k, n);
    PrefixOfPrefix(Space(g, e, k), Space(g, d, c), g.Capacity(n), Min(d.Size(g, h), newSize));
  }

  ghost predicate ResizedFile(f: File, f': File, newSize: nat) {
    && f'.flags == f.flags && |f'.content| == newSize
    && var m := Min(|f.content|, newSize); f'.content[..m] == f.content[..m]
  }

  lemma ResizedContent(g: Geometry, d: Disk, live: map<int, seq<int>>, e: Disk, h: int, newSize: nat)
    requires g.Ok() && Wf(g, d, live) && h in live && Resized(g, d, live, e, h, newSize)
    requires Wf(g, e, live[h := ResizedChain(g, d, live[h], newSize)])
    ensures
      ResizedFile(FilesOf(g, d, live)[h], FilesOf(g, e, live[h := ResizedChain(g, d, live[h], newSize)])[h], newSize)
  {
    hide Wf, Linked, SamePayload, Space, ResizedChain, SameOutside, Fresh, FilesOf;
    var k := ResizedChain(g, d, live[h], newSize);
    FileSpace(g, d, live, h);
    FileSpace(g, e, live[h := k], h);
    ResizedSpace(g, d, live, e, h, newSize);
    assert live[h := k][h] == k;
  }

  /** The extending branch of truncate_file, entered after the new size is stored. */
  method ExtendFile(fs: FsDescriptors, blockIndex: nat, oldBlocks: nat, newBlocks: nat, ghost newSize: nat,
                    ghost d: Disk)
      returns (r: Result<()>)
    requires fs.Mapped() && newSize < LIMIT && Wf(fs.g, d, fs.live) && d.Shaped(fs.g)
    requires blockIndex in fs.live && blockIndex in d.blocks
    requires fs.D() == d.Write(fs.g, blockIndex, SIZE_AT, EncodeWord(newSize))
    requires oldBlocks == |fs.live[blockIndex]| < newBlocks == fs.g.BlocksRequired(newSize)
    modifies fs.container
    ensures r.Fatal? <==> !Fits(fs.g, d, fs.live[blockIndex], newSize)
    ensures r.Fatal? ==> r.error == FullError(fs.g)
    ensures r.Fatal? ==> Damaged(fs.g, d, fs.live, fs.D(), blockIndex)
    ensures fs.D().super == d.super
    ensures r.Ok? ==> Resized(fs.g, d, fs.live, fs.D(), blockIndex, newSize)
  {
    hide View, FsDescriptors.Word, Wf, FileOk, Linked, Growing, Space, SamePayload, AlmostResized, Fresh, Below,
      FileAt, Set, Distinct, SameOutside, FilesOf, Resized, OtherIntact, Broken;
    ghost var g, h, live := fs.g, blockIndex, fs.live;
    ghost var c := live[h];
    WfFile(g, d, live, h);
    GrowStart(g, d, c, newSize);
    StoreSize(g, d, h, newSize);
    var tail := fs.Word(blockIndex, fs.g.lastAt);
    var extended, cur := Extend(fs, tail, newBlocks - oldBlocks, d, h, newSize);
    if extended.Fatal? {
      GrowingOthers(g, d, live, fs.D(), cur, h, newSize);
      GrowingMore(g, d, c, fs.D(), cur, newSize);
      ShortChain(g, d, c, fs.D(), cur, newSize);
      return Fatal(extended.error);
    }
    GrowDone(g, d, live, fs.D(), cur, h, newSize);
    StoreTail(g, d, live, fs.D(), h, newSize);
    fs.StoreWord(blockIndex, fs.g.lastAt, extended.value);
    ResizedOthers(g, d, live, fs.D(), h, newSize);
    return Ok(());
  }

  /** The bits that shrinking clears are those of all blocks on the way rest from the file's chain to a 0;
      but for them, the file is resized. */
  ghost predicate Trimmed(g: Geometry, d: Disk, live: map<int, seq<int>>, e: Disk, h: int, newSize: nat, rest: seq<int>)
    requires g.Ok() && Wf(g, d, live) && d.Shaped(g) && h in live && g.BlocksRequired(newSize) < |live[h]|
  {
    var n := g.BlocksRequired(newSize);
    && Leads(g, d, live[h], rest) && n <= |rest|
    && e.used == d.used - Set(rest[n..])
    && Resized(g, d, live, e.(used := d.used - Set(live[h][n..])), h, newSize)
  }

  /** The file keeps its chain and its bytes, and all files keep theirs; only bits are missing. */
  lemma CutFiles(g: Geometry, d: Disk, live: map<int, seq<int>>, e: Disk, h: int, newSize: nat, rest: seq<int>, k: int)
    requires g.Ok() && Wf(g, d, live) && d.Shaped(g) && h in live && g.BlocksRequired(newSize) < |live[h]|
    requires Trimmed(g, d, live, e, h, newSize, rest) && k in live
    ensures e.Shaped(g)
    ensures var c := if k == h then ResizedChain(g, d, live[h], newSize) else live[k];
      && FileOk(g, e, k, c)
      && (k != h ==> OtherIntact(g, d, live, e, k))
  {
    hide Linked, SamePayload, Space, Owned, Fresh, ResizedChain, Leads, FileOk, Wf, FileAt;
    var f := e.(used := d.used - Set(live[h][g.BlocksRequired(newSize)..]));
    ResizedWf(g, d, live, f, h, newSize);
    ResizedOthers(g, d, live, f, h, newSize);
    WfFile(g, f, live[h := ResizedChain(g, d, live[h], newSize)], k);
    var c := if k == h then ResizedChain(g, d, live[h], newSize) else live[k];
    BitsAside(g, f, e, k, c);
  }

  /** Bits say nothing about chains and bytes. */
  lemma BitsAside(g: Geometry, d: Disk, e: Disk, h: int, c: seq<int>)
    requires g.Ok() && d.Shaped(g) && e.Shaped(g) && e == d.(used := e.used) && FileOk(g, d, h, c)
    ensures FileOk(g, e, h, c) && FileAt(g, e, h, c) == FileAt(g, d, h, c)
  {
    SpaceAside(g, d, e, c);
    forall i | 0 <= i < |c| - 1
      ensures e.Cont(g, c[i]) == c[i + 1]
    {
      assert d.Cont(g, c[i]) == c[i + 1];
    }
  }

  lemma {:induction false} SpaceAside(g: Geometry, d: Disk, e: Disk, c: seq<int>)
    requires g.Ok() && d.Shaped(g) && e.Shaped(g) && e == d.(used := e.used) && InBlocks(d, c)
    ensures InBlocks(e, c) && Space(g, e, c) == Space(g, d, c)
  {
    if c != [] {
      assert InBlocks(d, c[..|c| - 1]);
      SpaceAside(g, d, e, c[..|c| - 1]);
    }
  }

  /** Shrinking keeps a file system of the same files if and only if the way to the 0 behind the file's
      chain passed no used block. */
  lemma CutWf(g: Geometry, d: Disk, live: map<int, seq<int>>, e: Disk, h: int, newSize: nat, rest: seq<int>,
              m: map<int, seq<int>>)
    requires g.Ok() && Wf(g, d, live) && d.Shaped(g) && h in live && g.BlocksRequired(newSize) < |live[h]|
    requires Trimmed(g, d, live, e, h, newSize, rest) && m.Keys == live.Keys
    ensures Wf(g, e, m) <==>
            Ends(g, d, live[h]) && m == live[h := ResizedChain(g, d, live[h], newSize)]
  {
    hide Linked, SamePayload, Space, Owned, Fresh, ResizedChain, FileOk, Resized, Apart, Terminated, Distinct;
    var n, k := g.BlocksRequired(newSize), live[h := ResizedChain(g, d, live[h], newSize)];
    var f := e.(used := d.used - Set(live[h][n..]));
    ResizedWf(g, d, live, f, h, newSize);
    LeadsUnique(g, d, live[h], rest);
    if Walks(g, d, live[h], rest) {
      WalkUsed(g, d, live[h], rest, n);
    }
    if Wf(g, e, m) {
      SameChains(g, d, live, e, h, newSize, rest, m);
      CutUsed(g, d, live[h], rest, n);
    }
  }

  lemma SameChains(g: Geometry, d: Disk, live: map<int, seq<int>>, e: Disk, h: int, newSize: nat, rest: seq<int>,
                   m: map<int, seq<int>>)
    requires g.Ok() && Wf(g, d, live) && d.Shaped(g) && h in live && g.BlocksRequired(newSize) < |live[h]|
    requires Trimmed(g, d, live, e, h, newSize, rest) && m.Keys == live.Keys && Wf(g, e, m)
    ensures m == live[h := ResizedChain(g, d, live[h], newSize)]
  {
    hide Trimmed, FileOk, Wf, ResizedChain, OtherIntact;
    forall k | k in live
      ensures m[k] == live[h := ResizedChain(g, d, live[h], newSize)][k]
    {
      CutFiles(g, d, live, e, h, newSize, rest, k);
      WfFile(g, e, m, k);
      ChainUnique(g, e, k, m[k], live[h := ResizedChain(g, d, live[h], newSize)][k]);
    }
  }

  /** Clearing the bits of the whole way clears more than the chain's exactly if a block behind the chain is
      used. */
  lemma CutUsed(g: Geometry, d: Disk, c: seq<int>, rest: seq<int>, n: nat)
    requires g.Ok() && d.Shaped(g) && Leads(g, d, c, rest) && n <= |c|
    ensures d.used - Set(rest[n..]) == d.used - Set(c[n..]) <==> Walks(g, d, c, rest)
  {
    hide Terminated;
    assert rest[n..] == c[n..] + rest[|c|..];
    if d.used - Set(rest[n..]) == d.used - Set(c[n..]) {
      forall i | |c| <= i < |rest|
        ensures rest[i] !in d.used
      {
        assert rest[n..][i - n] == rest[i];
        assert rest[i] !in d.used - Set(rest[n..]);
        assert rest[i] !in c[n..];
      }
    }
  }

  /** When the way passes a used block, another file loses it: its bit is clear, and its chain still has it. */
  lemma CutVictim(g: Geometry, d: Disk, live: map<int, seq<int>>, e: Disk, h: int, newSize: nat, rest: seq<int>)
      returns (k: int, x: int)
    requires g.Ok() && Wf(g, d, live) && d.Shaped(g) && h in live && g.BlocksRequired(newSize) < |live[h]|
    requires Trimmed(g, d, live, e, h, newSize, rest) && !Ends(g, d, live[h])
    ensures k in live && k != h && x in live[k] && x !in e.used && e.Shaped(g) && FileOk(g, e, k, live[k])
  {
    hide Resized, FileOk, Apart, Terminated, Distinct;
    LeadsUnique(g, d, live[h], rest);
    var i :| |live[h]| <= i < |rest| && rest[i] in d.used;
    x := rest[i];
    var n := g.BlocksRequired(newSize);
    assert rest[n..][i - n] == x;
    LinkedBasics(g, d, rest);
    DataNotMeta(g, x);
    k := OwnedWho(live, g.blocksCount, x);
    NotAgain(rest, live[h], i);
    CutFiles(g, d, live, e, h, newSize, rest, k);
  }

  lemma NotAgain(rest: seq<int>, c: seq<int>, i: nat)
    requires Distinct(rest) && c <= rest && |c| <= i < |rest|
    ensures rest[i] !in c
  {
  }

  lemma CutClean(g: Geometry, d: Disk, live: map<int, seq<int>>, e: Disk, h: int, newSize: nat, rest: seq<int>)
    requires g.Ok() && Wf(g, d, live) && d.Shaped(g) && h in live && g.BlocksRequired(newSize) < |live[h]|
    requires Trimmed(g, d, live, e, h, newSize, rest)
    ensures Ends(g, d, live[h]) ==> Resized(g, d, live, e, h, newSize)
    ensures e.super == d.super && Fits(g, d, live[h], newSize)
  {
    hide Resized, Terminated, Linked, FileOk, Owned, Apart, SameOutside, ResizedChain;
    var f := e.(used := d.used - Set(live[h][g.BlocksRequired(newSize)..]));
    ResizedWf(g, d, live, f, h, newSize);
    WfShaped(g, d, live);
    LeadsUnique(g, d, live[h], rest);
    if Walks(g, d, live[h], rest) { WalkUsed(g, d, live[h], rest, g.BlocksRequired(newSize)); }
  }

  /** Shrinking a file of this chain to newSize bytes frees nothing but its own blocks. */
  ghost predicate Clean(g: Geometry, d: Disk, c: seq<int>, newSize: nat)
    requires g.Ok() && d.Shaped(g)
  {
    g.BlocksRequired(newSize) < |c| ==> Ends(g, d, c)
  }

  /** The shrinking branch of truncate_file: walk to the last block to keep, free the rest. */
  method CutFile(fs: FsDescriptors, blockIndex: nat, newBlocks: nat, ghost newSize: nat, ghost d: Disk)
    requires fs.Mapped() && newSize < LIMIT && Wf(fs.g, d, fs.live) && d.Shaped(fs.g)
    requires blockIndex in fs.live && blockIndex in d.blocks
    requires fs.D() == d.Write(fs.g, blockIndex, SIZE_AT, EncodeWord(newSize))
    requires |fs.live[blockIndex]| > newBlocks == fs.g.BlocksRequired(newSize)
    requires Reaches(fs.g, d, fs.live[blockIndex])
    modifies fs.container
    ensures exists rest :: Trimmed(fs.g, d, fs.live, fs.D(), blockIndex, newSize, rest)
  {
    hide View, FsDescriptors.Word, Wf, FileOk, Linked, Growing, Space, SamePayload, AlmostResized, Fresh, Below,
      FileAt, Set, Distinct, SameOutside, FilesOf, Resized, OtherIntact, Terminated, Leads;
    ghost var g, h, live := fs.g, blockIndex, fs.live;
    ghost var c := live[h];
    WfFile(g, d, live, h);
    ghost var rest :| Leads(g, d, c, rest);
    LeadShape(g, d, c, rest);
    ShrinkRest(g, d, c, newSize);
    ShrinkRest(g, d, rest, newSize);
    ghost var e := fs.D();
    LinkedBasics(g, e, c);
    var b, i := blockIndex, 1;
    while i < newBlocks
      invariant 1 <= i <= newBlocks && b == c[i - 1] && fs.D() == e
    {
      LinkedNext(g, e, c, i - 1);
      b := fs.Word(b, 0);
      i := i + 1;
    }
    var purged := PurgeBlocks(fs, fs.Word(b, 0), rest[newBlocks..]);
    ShrinkDone(g, d, live, h, newSize);
    StoreTail(g, d, live, e.(used := d.used - Set(c[newBlocks..])), h, newSize);
    fs.StoreWord(blockIndex, fs.g.lastAt, b);
    assert Trimmed(g, d, live, fs.D(), h, newSize, rest);
  }

  /** Gives file blockIndex newSize bytes: new blocks are the least free ones, dropped blocks are
      freed, and bytes beyond the old size are whatever the blocks held. Shrinking follows the links
      to a 0. It fails exactly when blocks run out; then the file is broken and the others are intact. The
      file system is consistent afterwards if and only if the size fits and shrinking, if it is one, passes
      no used block on its way to the 0. */
  method TruncateFile(fs: FsDescriptors, blockIndex: nat, newSize: nat) returns (r: Result<()>)
    requires fs.Valid() && blockIndex in fs.live && newSize < LIMIT
    requires fs.g.BlocksRequired(newSize) < |fs.live[blockIndex]| ==> Reaches(fs.g, fs.D(), fs.live[blockIndex])
    modifies fs`live, fs.container
    ensures fs.SuperblockOk()
    ensures fs.Valid() <==> r.Ok? && Clean(fs.g, old(fs.D()), old(fs.live)[blockIndex], newSize)
    ensures r.Fatal? <==> !Fits(fs.g, old(fs.D()), old(fs.live)[blockIndex], newSize)
    ensures r.Fatal? ==> r.error == FullError(fs.g) && fs.live == old(fs.live)
    ensures r.Fatal? ==> Damaged(fs.g, old(fs.D()), fs.live, fs.D(), blockIndex)
    ensures r.Ok? ==> fs.live == old(fs.live)[blockIndex :=
              ResizedChain(fs.g, old(fs.D()), old(fs.live)[blockIndex], newSize)]
    ensures fs.Valid() ==> Resized(fs.g, old(fs.D()), old(fs.live), fs.D(), blockIndex, newSize)
    ensures fs.Valid() ==> fs.Files() == old(fs.Files())[blockIndex := fs.Files()[blockIndex]]
    ensures fs.Valid() ==> ResizedFile(old(fs.Files())[blockIndex], fs.Files()[blockIndex], newSize)
    ensures r.Ok? && !fs.Valid() ==>
              && fs.g.BlocksRequired(newSize) < |old(fs.live)[blockIndex]|
              && exists rest :: Trimmed(fs.g, old(fs.D()), old(fs.live), fs.D(), blockIndex, newSize, rest)
  {
    hide View, FsDescriptors.Word, Wf, FileOk, Linked, Growing, Space, SamePayload, AlmostResized, Fresh, Below,
      FileAt, Set, Distinct, SameOutside, FilesOf, Resized, Damaged, ResizedChain, GetBlocksRequired, ResizedFile,
      Terminated, Ends, Reaches, Trimmed;
    ghost var g, h, d, live := fs.g, blockIndex, fs.D(), fs.live;
    WfFile(g, d, live, h);
    WfShaped(g, d, live);
    var oldBlocks := GetBlocksRequired(fs.g, fs.Word(blockIndex, SIZE_AT));
    var newBlocks := GetBlocksRequired(fs.g, newSize);
    fs.StoreWord(blockIndex, SIZE_AT, newSize);
    if newBlocks > oldBlocks {
      var extended := ExtendFile(fs, blockIndex, oldBlocks, newBlocks, newSize, d);
      if extended.Fatal? {
        DamagedForGood(g, d, live, fs.D(), h, live);
        return extended;
      }
    } else if newBlocks < oldBlocks {
      CutFile(fs, blockIndex, newBlocks, newSize, d);
      ghost var rest :| Trimmed(g, d, live, fs.D(), h, newSize, rest);
      CutWf(g, d, live, fs.D(), h, newSize, rest, live[h := ResizedChain(g, d, live[h], newSize)]);
      CutClean(g, d, live, fs.D(), h, newSize, rest);
    } else {
      KeepDone(g, d, live, h, newSize);
    }
    fs.live := live[h := ResizedChain(g, d, live[h], newSize)];
    if Clean(g, d, live[h], newSize) {
      ResizedWf(g, d, live, fs.D(), h, newSize);
      ResizedContent(g, d, live, fs.D(), h, newSize);
    }
    return Ok(());
  }

  /** Shrinking does not take away the end that shrinking needs. */
  lemma ResizedEnds(g: Geometry, d: Disk, live: map<int, seq<int>>, e: Disk, h: int, newSize: nat)
    requires g.Ok() && Wf(g, d, live) && h in live && Resized(g, d, live, e, h, newSize)
    requires g.BlocksRequired(newSize) <= |live[h]| && d.Shaped(g) && Ends(g, d, live[h])
    ensures e.Shaped(g) && Ends(g, e, ResizedChain(g, d, live[h], newSize))
  {
    hide Wf, SamePayload, Fresh, Terminated, FileOk, Owned, Apart;
    WfFile(g, d, live, h);
    var c, k := live[h], ResizedChain(g, d, live[h], newSize);
    ResizedPrefix(g, d, c, newSize);
    var rest :| Walks(g, d, c, rest);
    ResizedLinks(g, d, live, e, h, newSize);
    WalkKept(g, d, c, rest, e, k);
  }

  lemma ResizedLinks(g: Geometry, d: Disk, live: map<int, seq<int>>, e: Disk, h: int, newSize: nat)
    requires g.Ok() && Wf(g, d, live) && h in live && Resized(g, d, live, e, h, newSize)
    ensures var c, k := live[h], ResizedChain(g, d, live[h], newSize);
      d.Shaped(g) && e.Shaped(g) && Linked(g, e, k) && Aside(g, d, e, k) && e.used == d.used - Set(c) + Set(k)
  {
    hide Wf, Linked, SamePayload, Fresh, SameOutside, Space;
    WfShaped(g, d, live);
  }

  /** Where the first blocks of a walk are linked as before, and the others are left alone, the walk is
      still there. */
  lemma WalkKept(g: Geometry, d: Disk, c: seq<int>, rest: seq<int>, e: Disk, k: seq<int>)
    requires g.Ok() && d.Shaped(g) && e.Shaped(g) && Walks(g, d, c, rest) && k <= c && Linked(g, e, k)
    requires Aside(g, d, e, k) && e.used == d.used - Set(c) + Set(k)
    ensures Walks(g, e, k, rest)
  {
    forall i | 0 <= i < |rest|
      ensures rest[i] in e.blocks && e.Cont(g, rest[i]) == d.Cont(g, rest[i])
    {
      if i < |k| - 1 {
        assert k[i] == rest[i] && e.Cont(g, k[i]) == k[i + 1] && d.Cont(g, rest[i]) == rest[i + 1];
      } else if i >= |k| {
        assert forall j :: 0 <= j < |k| ==> k[j] == rest[j] && rest[j] != rest[i];
      }
    }
    forall i | |k| <= i < |rest|
      ensures rest[i] !in e.used
    {
      assert forall j :: 0 <= j < |k| ==> k[j] == rest[j] && rest[j] != rest[i];
      if i < |c| { assert rest[i] == c[i]; }
    }
  }

  /** When a resized chain ends in 0: never after blocks were dropped, since the cut link stays; and
      otherwise exactly if its tail held 0 before, which a reused block need not. */
  lemma ResizedEndsInZero(g: Geometry, d: Disk, live: map<int, seq<int>>, e: Disk, h: int, newSize: nat)
    requires g.Ok() && Wf(g, d, live) && h in live && Resized(g, d, live, e, h, newSize)
    ensures d.Shaped(g) && e.Shaped(g)
    ensures var k := ResizedChain(g, d, live[h], newSize);
      && k != [] && k[|k| - 1] in d.blocks
      && (Terminated(g, e, k) <==> |live[h]| <= |k| && d.Cont(g, k[|k| - 1]) == 0)
  {
    hide Wf, Linked, SamePayload, SameOutside, Fresh;
    WfFile(g, d, live, h);
    var c, k := live[h], ResizedChain(g, d, live[h], newSize);
    LinkedBasics(g, e, k);
    LinkedBasics(g, d, c);
    MetaExact(g);
    if |k| < |c| {
      LinkedNext(g, d, c, |k| - 1);
      assert k == c[..|k|] && k[|k| - 1] == c[|k| - 1];
    }
  }
}
