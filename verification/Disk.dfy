/** The container seen as a superblock, a set of used blocks and the data blocks. */
module Disk {
  import opened Bytes
  import opened Layout

  datatype Disk = Disk(super: seq<byte>, used: set<int>, blocks: map<int, seq<byte>>)
  {
    /** used may hold padding bits of the table's last byte, so it is bounded by whole bytes. */
    ghost predicate Shaped(g: Geometry)
      requires g.Ok()
    {
      && |super| == g.superSize
      && (forall i :: i in used ==> 0 <= i < 8 * g.TableLen())
      && (forall b :: b in blocks <==> g.IsData(b))
      && (forall b :: b in blocks ==> |blocks[b]| == g.blockSize)
    }

    ghost function Word(b: int, at: nat): nat
      requires b in blocks && at + WORD <= |blocks[b]|
    {
      Decode(blocks[b][at..at + WORD])
    }

    ghost function Cont(g: Geometry, b: int): nat
      requires g.Ok() && Shaped(g) && b in blocks
    {
      Word(b, 0)
    }

    ghost function Size(g: Geometry, b: int): nat
      requires g.Ok() && Shaped(g) && b in blocks
    {
      Word(b, SIZE_AT)
    }

    ghost function Flags(g: Geometry, b: int): byte
      requires g.Ok() && Shaped(g) && b in blocks
    {
      blocks[b][FLAGS_AT]
    }

    ghost function Last(g: Geometry, b: int): nat
      requires g.Ok() && Shaped(g) && b in blocks
    {
      Word(b, g.lastAt)
    }

    /** The payload block b contributes as the i-th block of a file. */
    ghost function Payload(g: Geometry, b: int, i: nat): (s: seq<byte>)
      requires g.Ok() && Shaped(g) && b in blocks
      ensures |s| == g.Room(i)
    {
      blocks[b][g.Hdr(i)..]
    }

    ghost function Write(g: Geometry, b: int, o: nat, data: seq<byte>): (d: Disk)
      requires g.Ok() && Shaped(g) && b in blocks && o + |data| <= g.blockSize
      ensures d.Shaped(g)
    {
      this.(blocks := blocks[b := Patch(blocks[b], o, data)])
    }

    ghost function Mark(i: nat, occupied: bool): Disk {
      this.(used := if occupied then used + {i} else used - {i})
    }
  }

  /** d and e have the same blocks outside s. */
  ghost predicate SameOutside(d: Disk, e: Disk, s: set<int>) {
    && d.super == e.super
    && d.blocks.Keys == e.blocks.Keys
    && forall b :: b in d.blocks && b !in s ==> d.blocks[b] == e.blocks[b]
  }

  lemma WriteWord(g: Geometry, d: Disk, b: int, o: nat, w: nat)
    requires g.Ok() && d.Shaped(g) && b in d.blocks && o + WORD <= g.blockSize && w < LIMIT
    ensures d.Write(g, b, o, EncodeWord(w)).Word(b, o) == w
  {
    WordRoundTrip(w);
    PatchSelf(d.blocks[b], o, EncodeWord(w));
  }

  lemma WriteOtherWord(g: Geometry, d: Disk, b: int, o: nat, data: seq<byte>, at: nat)
    requires g.Ok() && d.Shaped(g) && b in d.blocks && o + |data| <= g.blockSize && at + WORD <= g.blockSize
    requires at + WORD <= o || o + |data| <= at
    ensures d.Write(g, b, o, data).Word(b, at) == d.Word(b, at)
  {
    PatchDisjoint(d.blocks[b], o, data, at, at + WORD);
  }

  /** What storing one header field of block b keeps: the other fields and the payload. */
  ghost predicate SameHeader(g: Geometry, d: Disk, e: Disk, b: int, cont: bool, size: bool, last: bool)
    requires g.Ok() && d.Shaped(g) && e.Shaped(g) && b in d.blocks && b in e.blocks
  {
    && (cont ==> e.Cont(g, b) == d.Cont(g, b))
    && (size ==> e.Size(g, b) == d.Size(g, b))
    && (last ==> e.Last(g, b) == d.Last(g, b))
    && e.Flags(g, b) == d.Flags(g, b)
    && e.Payload(g, b, 0) == d.Payload(g, b, 0)
  }

  lemma StoreCont(g: Geometry, d: Disk, b: int, w: nat)
    requires g.Ok() && d.Shaped(g) && b in d.blocks && w < LIMIT
    ensures var e := d.Write(g, b, 0, EncodeWord(w));
      e.Cont(g, b) == w && SameHeader(g, d, e, b, false, true, true)
      && e.Payload(g, b, 1) == d.Payload(g, b, 1)
  {
    WriteWord(g, d, b, 0, w);
    WriteOtherWord(g, d, b, 0, EncodeWord(w), SIZE_AT);
    WriteOtherWord(g, d, b, 0, EncodeWord(w), g.lastAt);
    PatchAt(d.blocks[b], 0, EncodeWord(w), FLAGS_AT);
    PatchBehind(d.blocks[b], 0, EncodeWord(w), g.mainSize);
    PatchBehind(d.blocks[b], 0, EncodeWord(w), HEADER);
  }

  lemma StoreSize(g: Geometry, d: Disk, b: int, w: nat)
    requires g.Ok() && d.Shaped(g) && b in d.blocks && w < LIMIT
    ensures var e := d.Write(g, b, SIZE_AT, EncodeWord(w));
      e.Size(g, b) == w && SameHeader(g, d, e, b, true, false, true)
  {
    WriteWord(g, d, b, SIZE_AT, w);
    WriteOtherWord(g, d, b, SIZE_AT, EncodeWord(w), 0);
    WriteOtherWord(g, d, b, SIZE_AT, EncodeWord(w), g.lastAt);
    PatchAt(d.blocks[b], SIZE_AT, EncodeWord(w), FLAGS_AT);
    PatchBehind(d.blocks[b], SIZE_AT, EncodeWord(w), g.mainSize);
  }

  lemma StoreLast(g: Geometry, d: Disk, b: int, w: nat)
    requires g.Ok() && d.Shaped(g) && b in d.blocks && w < LIMIT
    ensures var e := d.Write(g, b, g.lastAt, EncodeWord(w));
      e.Last(g, b) == w && SameHeader(g, d, e, b, true, true, false)
  {
    WriteWord(g, d, b, g.lastAt, w);
    WriteOtherWord(g, d, b, g.lastAt, EncodeWord(w), 0);
    WriteOtherWord(g, d, b, g.lastAt, EncodeWord(w), SIZE_AT);
    PatchAt(d.blocks[b], g.lastAt, EncodeWord(w), FLAGS_AT);
    PatchBehind(d.blocks[b], g.lastAt, EncodeWord(w), g.mainSize);
  }

  lemma StorePayload(g: Geometry, d: Disk, b: int, i: nat, o: nat, data: seq<byte>)
    requires g.Ok() && d.Shaped(g) && b in d.blocks && o + |data| <= g.Room(i)
    ensures d.Write(g, b, g.Hdr(i) + o, data).Payload(g, b, i) == Patch(d.Payload(g, b, i), o, data)
  {
    PatchInside(d.blocks[b], g.Hdr(i) + o, data, g.Hdr(i), g.blockSize);
    var x := Patch(d.blocks[b], g.Hdr(i) + o, data);
    UpToEnd(x, g.Hdr(i), g.blockSize);
    UpToEnd(d.blocks[b], g.Hdr(i), g.blockSize);
  }

  lemma UpToEnd(s: seq<byte>, lo: nat, n: nat)
    requires lo <= |s| == n
    ensures s[lo..n] == s[lo..]
  {
  }

  /** Writing payload of the i-th block of a file leaves its header alone. */
  lemma StorePayloadHeader(g: Geometry, d: Disk, b: int, i: nat, o: nat, data: seq<byte>)
    requires g.Ok() && d.Shaped(g) && b in d.blocks && o + |data| <= g.Room(i)
    ensures var e := d.Write(g, b, g.Hdr(i) + o, data);
      e.Cont(g, b) == d.Cont(g, b)
      && (i == 0 ==> e.Size(g, b) == d.Size(g, b) && e.Flags(g, b) == d.Flags(g, b) && e.Last(g, b) == d.Last(g, b))
  {
    var at := g.Hdr(i) + o;
    WriteOtherWord(g, d, b, at, data, 0);
    if i == 0 {
      WriteOtherWord(g, d, b, at, data, SIZE_AT);
      WriteOtherWord(g, d, b, at, data, g.lastAt);
    }
  }

  // ---- The view of a flat container ----

  ghost function TableBit(g: Geometry, m: seq<byte>, i: nat): bool
    requires g.Ok() && |m| == g.Base(g.blocksCount) && i < 8 * g.TableLen()
  {
    MetaExact(g);
    BaseMonotone(g, g.MetaPages(), g.blocksCount);
    Bit(m[g.superSize + i / 8], i % 8)
  }

  ghost function BlockBytes(g: Geometry, m: seq<byte>, b: nat): (s: seq<byte>)
    requires g.Ok() && |m| == g.Base(g.blocksCount) && b < g.blocksCount
    ensures |s| == g.blockSize
  {
    BaseOrder(g, b, g.blocksCount);
    m[g.Base(b)..g.Base(b) + g.blockSize]
  }

  ghost function ViewUsed(g: Geometry, m: seq<byte>): (u: set<int>)
    requires g.Ok() && |m| == g.Base(g.blocksCount)
  {
    set i | 0 <= i < 8 * g.TableLen() && TableBit(g, m, i)
  }

  ghost function ViewBlocks(g: Geometry, m: seq<byte>): (d: map<int, seq<byte>>)
    requires g.Ok() && |m| == g.Base(g.blocksCount)
  {
    map b | g.MetaPages() <= b < g.blocksCount :: BlockBytes(g, m, b)
  }

  ghost function View(g: Geometry, m: seq<byte>): (d: Disk)
    requires g.Ok() && |m| == g.Base(g.blocksCount)
    ensures d.Shaped(g)
  {
    MetaExact(g);
    BaseMonotone(g, g.MetaPages(), g.blocksCount);
    Disk(m[..g.superSize], ViewUsed(g, m), ViewBlocks(g, m))
  }

  lemma PatchedBlock(g: Geometry, m: seq<byte>, b: nat, o: nat, data: seq<byte>, c: nat)
    requires g.Ok() && |m| == g.Base(g.blocksCount)
    requires b < g.blocksCount && c < g.blocksCount && o + |data| <= g.blockSize
    ensures g.Base(b) + g.blockSize <= |m|
    ensures BlockBytes(g, Patch(m, g.Base(b) + o, data), c) ==
            if c == b then Patch(BlockBytes(g, m, b), o, data) else BlockBytes(g, m, c)
  {
    BaseOrder(g, b, g.blocksCount);
    BaseOrder(g, c, g.blocksCount);
    var at := g.Base(b) + o;
    if c == b {
      PatchInside(m, at, data, g.Base(b), g.Base(b) + g.blockSize);
    } else {
      if c < b { BaseOrder(g, c, b); } else { BaseOrder(g, b, c); }
      PatchDisjoint(m, at, data, g.Base(c), g.Base(c) + g.blockSize);
    }
  }

  lemma PatchBehind<T>(s: seq<T>, at: nat, x: seq<T>, lo: nat)
    requires at + |x| <= lo <= |s|
    ensures Patch(s, at, x)[lo..] == s[lo..]
  {
  }

  lemma PatchAt<T>(s: seq<T>, at: nat, x: seq<T>, i: nat)
    requires at + |x| <= |s| && i < |s|
    ensures Patch(s, at, x)[i] == if at <= i < at + |x| then x[i - at] else s[i]
  {
  }

  lemma PatchedTable(g: Geometry, m: seq<byte>, at: nat, data: seq<byte>, i: nat)
    requires g.Ok() && |m| == g.Base(g.blocksCount) && i < 8 * g.TableLen()
    requires g.Base(g.MetaPages()) <= at && at + |data| <= |m|
    ensures TableBit(g, Patch(m, at, data), i) == TableBit(g, m, i)
  {
    MetaExact(g);
    PatchAt(m, at, data, g.superSize + i / 8);
  }

  lemma WrittenTable(g: Geometry, m: seq<byte>, b: int, o: nat, data: seq<byte>)
    requires g.Ok() && |m| == g.Base(g.blocksCount) && g.IsData(b) && o + |data| <= g.blockSize
    ensures g.superSize <= g.Base(b) && g.Base(b) + g.blockSize <= |m|
    ensures ViewUsed(g, Patch(m, g.Base(b) + o, data)) == ViewUsed(g, m)
  {
    MetaExact(g);
    BaseMonotone(g, g.MetaPages(), b);
    BaseOrder(g, b, g.blocksCount);
    forall i | 0 <= i < 8 * g.TableLen()
      ensures TableBit(g, Patch(m, g.Base(b) + o, data), i) == TableBit(g, m, i)
    {
      PatchedTable(g, m, g.Base(b) + o, data, i);
    }
  }

  lemma WrittenBlocks(g: Geometry, m: seq<byte>, b: int, o: nat, data: seq<byte>)
    requires g.Ok() && |m| == g.Base(g.blocksCount) && g.IsData(b) && o + |data| <= g.blockSize
    ensures g.Base(b) + g.blockSize <= |m|
    ensures ViewBlocks(g, Patch(m, g.Base(b) + o, data)) ==
            ViewBlocks(g, m)[b := Patch(BlockBytes(g, m, b), o, data)]
  {
    BaseOrder(g, b, g.blocksCount);
    forall c | g.IsData(c)
      ensures BlockBytes(g, Patch(m, g.Base(b) + o, data), c) ==
              if c == b then Patch(BlockBytes(g, m, b), o, data) else BlockBytes(g, m, c)
    {
      PatchedBlock(g, m, b, o, data, c);
    }
  }

  /** Overwriting bytes inside one data block changes that block and nothing else. */
  lemma ViewWrite(g: Geometry, m: seq<byte>, b: int, o: nat, data: seq<byte>)
    requires g.Ok() && |m| == g.Base(g.blocksCount) && g.IsData(b) && o + |data| <= g.blockSize
    ensures g.Base(b) + g.blockSize <= |m|
    ensures View(g, Patch(m, g.Base(b) + o, data)) == View(g, m).Write(g, b, o, data)
  {
    WrittenTable(g, m, b, o, data);
    WrittenBlocks(g, m, b, o, data);
    var n := Patch(m, g.Base(b) + o, data);
    assert n[..g.superSize] == m[..g.superSize];
    WrittenParts(g, m, n, b, o, data);
  }

  lemma WrittenParts(g: Geometry, m: seq<byte>, n: seq<byte>, b: int, o: nat, data: seq<byte>)
    requires g.Ok() && |m| == |n| == g.Base(g.blocksCount) && g.IsData(b) && o + |data| <= g.blockSize
    requires g.superSize <= |m| && n[..g.superSize] == m[..g.superSize] && ViewUsed(g, n) == ViewUsed(g, m)
    requires ViewBlocks(g, n) == ViewBlocks(g, m)[b := Patch(BlockBytes(g, m, b), o, data)]
    ensures View(g, n) == View(g, m).Write(g, b, o, data)
  {
  }

  lemma MarkedTable(g: Geometry, m: seq<byte>, i: nat, occupied: bool)
    requires g.Ok() && |m| == g.Base(g.blocksCount) && i < g.blocksCount
    ensures g.superSize + i / 8 < |m|
    ensures
      var at := g.superSize + i / 8;
      ViewUsed(g, m[at := MarkByte(m[at], i % 8, occupied)]) ==
      if occupied then ViewUsed(g, m) + {i} else ViewUsed(g, m) - {i}
  {
    MetaExact(g);
    BaseMonotone(g, g.MetaPages(), g.blocksCount);
    var at := g.superSize + i / 8;
    var n := m[at := MarkByte(m[at], i % 8, occupied)];
    forall j | 0 <= j < 8 * g.TableLen()
      ensures TableBit(g, n, j) == if j == i then occupied else TableBit(g, m, j)
    {
      MarkedByte(m[at], i % 8, j % 8, occupied);
    }
  }

  lemma TableByteBlocks(g: Geometry, m: seq<byte>, at: nat, x: byte)
    requires g.Ok() && |m| == g.Base(g.blocksCount) && at < g.superSize + g.TableLen()
    ensures at < |m| && ViewBlocks(g, m[at := x]) == ViewBlocks(g, m)
  {
    MetaExact(g);
    BaseMonotone(g, g.MetaPages(), g.blocksCount);
    forall c | g.IsData(c)
      ensures BlockBytes(g, m[at := x], c) == BlockBytes(g, m, c)
    {
      BaseMonotone(g, g.MetaPages(), c);
      BaseOrder(g, c, g.blocksCount);
      assert m[at := x] == Patch(m, at, [x]);
      PatchDisjoint(m, at, [x], g.Base(c), g.Base(c) + g.blockSize);
    }
  }

  /** Rewriting one byte of the lookup table so that one bit changes changes that bit only. */
  lemma ViewMark(g: Geometry, m: seq<byte>, i: nat, occupied: bool)
    requires g.Ok() && |m| == g.Base(g.blocksCount) && i < g.blocksCount
    ensures g.superSize + i / 8 < |m|
    ensures
      var at := g.superSize + i / 8;
      View(g, m[at := MarkByte(m[at], i % 8, occupied)]) == View(g, m).Mark(i, occupied)
  {
    MarkedTable(g, m, i, occupied);
    var at := g.superSize + i / 8;
    TableByteBlocks(g, m, at, MarkByte(m[at], i % 8, occupied));
    assert m[at := MarkByte(m[at], i % 8, occupied)][..g.superSize] == m[..g.superSize];
  }

  /** Bytes of a block are bytes of the container. */
  lemma ViewSlice(g: Geometry, m: seq<byte>, b: nat, at: nat, n: nat)
    requires g.Ok() && |m| == g.Base(g.blocksCount) && g.IsData(b) && at + n <= g.blockSize
    ensures g.Base(b) + at + n <= |m|
    ensures View(g, m).blocks[b][at..at + n] == m[g.Base(b) + at..g.Base(b) + at + n]
  {
    BaseOrder(g, b, g.blocksCount);
    assert View(g, m).blocks[b] == BlockBytes(g, m, b);
    SliceOfSlice(m, g.Base(b), g.Base(b) + g.blockSize, at, n);
  }

  lemma SliceOfSlice<T>(s: seq<T>, lo: nat, hi: nat, at: nat, n: nat)
    requires lo + at + n <= hi <= |s|
    ensures s[lo..hi][at..at + n] == s[lo + at..lo + at + n]
  {
    assert s[..lo + (hi - lo)] == s[..lo] + s[lo..hi];
    SliceOfPrefix(s, s[..lo], s[lo..hi], at, n);
  }

  lemma ViewTable(g: Geometry, m: seq<byte>, i: nat, k: nat)
    requires g.Ok() && |m| == g.Base(g.blocksCount) && i < g.TableLen() && k < 8
    ensures g.superSize + i < |m|
    ensures 8 * i + k in View(g, m).used <==> Bit(m[g.superSize + i], k)
  {
    MetaExact(g);
    BaseMonotone(g, g.MetaPages(), g.blocksCount);
    var j := 8 * i + k;
    assert j / 8 == i && j % 8 == k;
    assert j in ViewUsed(g, m) <==> TableBit(g, m, j);
  }
}
