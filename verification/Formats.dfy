/** What lies where: the formats on the disk and on the wire, byte by byte. */
module Formats {
  import opened Bytes
  import opened Layout
  import opened Disk
  import opened Chains
  import opened Namespace
  import opened Wire
  import opened Replies

  // ---- On the disk ----

  /** Words are little-endian. */
  lemma {:induction false} EncodeAt(w: nat, n: nat, i: nat)
    requires i < n
    ensures 0 < Pow256(i) && Encode(w, n)[i] as int == (w / Pow256(i)) % 256
  {
    ByteRoundTrip(w % 256);
    if i > 0 {
      EncodeAt(w / 256, n - 1, i - 1);
      DivTwice(w, Pow256(i - 1));
    }
  }

  lemma DivTwice(w: nat, p: nat)
    requires 0 < p
    ensures 0 < 256 * p && w / (256 * p) == w / 256 / p
  {
    var q := w / 256 / p;
    var r := w / 256 % p;
    assert w / 256 == q * p + r;
    var s := w % 256;
    assert w == 256 * (q * p + r) + s == q * (256 * p) + (256 * r + s);
    assert 0 <= 256 * r + s < 256 * p;
    DivUnique(w, 256 * p, q, 256 * r + s);
  }

  lemma DivUnique(w: nat, p: nat, q: nat, r: nat)
    requires w == q * p + r && r < p
    ensures w / p == q
  {
    var k := w / p;
    assert w == k * p + w % p;
    assert (k - q) * p == r - w % p;
    Multiple(k - q, p);
  }

  lemma Multiple(x: int, p: nat)
    ensures 1 <= x ==> p <= x * p
    ensures x <= -1 ==> x * p + p <= 0
  {
  }

  /** The superblock: block size, number of blocks and the five struct sizes. */
  lemma SuperblockFields(g: Geometry)
    ensures SuperblockBytes(g)[..8] == EncodeWord(g.blockSize)
    ensures SuperblockBytes(g)[8..16] == EncodeWord(g.blocksCount)
    ensures SuperblockBytes(g)[16..20] == Encode(8, 4) && SuperblockBytes(g)[20..24] == Encode(g.superSize, 4)
    ensures SuperblockBytes(g)[24..28] == Encode(8, 4) && SuperblockBytes(g)[28..32] == Encode(g.mainSize, 4)
    ensures SuperblockBytes(g)[32..36] == Encode(264, 4)
  {
    hide Encode, EncodeWord;
  }

  /** Bit b % 8 of byte b / 8 behind the superblock says whether block b is used. Block b starts at byte
      b * blockSize with the number of the next block; in a file's first block its size, flags and the
      number of its last block follow, and its bytes are behind that. */
  lemma BlockFields(g: Geometry, m: seq<byte>, d: Disk, b: nat, at: nat)
    requires g.Ok() && |m| == g.Base(g.blocksCount) && g.IsData(b) && d == View(g, m) && at == b * g.blockSize
    ensures g.superSize + b / 8 < |m| && at + g.blockSize <= |m| && d.Shaped(g) && b in d.blocks
    ensures b in d.used <==> m[g.superSize + b / 8] & ((1 as byte) << (b % 8)) != 0
    ensures d.Cont(g, b) == Decode(m[at..at + 8]) && d.Size(g, b) == Decode(m[at + 8..at + 16])
    ensures d.Flags(g, b) == m[at + 20] && d.Last(g, b) == Decode(m[at + g.lastAt..at + g.lastAt + 8])
    ensures d.Payload(g, b, 0) == m[at + g.mainSize..at + g.blockSize]
    ensures forall i: nat :: 0 < i ==> d.Payload(g, b, i) == m[at + 8..at + g.blockSize]
  {
    hide Decode, View, Mask;
    BaseIsProduct(g, b);
    UsedBit(g, m, b);
    BlockOf(g, m, b);
    assert d.blocks[b] == m[at..at + g.blockSize];
    SliceOf(m, at, at + g.blockSize, 0, 8);
    SliceOf(m, at, at + g.blockSize, 8, 16);
    SliceOf(m, at, at + g.blockSize, g.lastAt, g.lastAt + 8);
    SliceOf(m, at, at + g.blockSize, g.mainSize, g.blockSize);
    SliceOf(m, at, at + g.blockSize, 8, g.blockSize);
  }

  lemma SliceOf(m: seq<byte>, lo: nat, hi: nat, a: nat, b: nat)
    requires lo <= hi <= |m| && a <= b <= hi - lo
    ensures m[lo..hi][a..b] == m[lo + a..lo + b]
  {
    var s := m[lo..hi];
    assert forall i :: a <= i < b ==> s[i] == m[lo + i];
    assert |s[a..b]| == b - a;
    assert forall i :: 0 <= i < b - a ==> s[a..b][i] == m[lo + a..lo + b][i];
  }

  lemma BlockOf(g: Geometry, m: seq<byte>, b: nat)
    requires g.Ok() && |m| == g.Base(g.blocksCount) && g.IsData(b)
    ensures b in View(g, m).blocks && g.Base(b) + g.blockSize <= |m|
    ensures View(g, m).blocks[b] == m[g.Base(b)..g.Base(b) + g.blockSize]
  {
    BaseOrder(g, b, g.blocksCount);
  }

  lemma UsedBit(g: Geometry, m: seq<byte>, b: nat)
    requires g.Ok() && |m| == g.Base(g.blocksCount) && g.IsData(b)
    ensures g.superSize + b / 8 < |m|
    ensures b in View(g, m).used <==> m[g.superSize + b / 8] & ((1 as byte) << (b % 8)) != 0
  {
    hide Mask;
    MetaExact(g);
    BaseMonotone(g, g.MetaPages(), g.blocksCount);
    MaskIsShift(b % 8);
    assert b < 8 * g.TableLen();
    assert b in View(g, m).used <==> TableBit(g, m, b);
  }

  /** The flags, and a directory's item. */
  lemma ItemFields(it: Item)
    requires |it.name| == 256
    ensures |ItemBytes(it)| == 264 && ItemBytes(it)[..8] == EncodeWord(it.inode) && ItemBytes(it)[8..] == it.name
    ensures forall f: File :: (IsDirectory(f) <==> f.flags & 1 != 0) && (IsFile(f) <==> f.flags & 2 != 0)
  {
    hide Encode;
  }

  // ---- On the wire ----

  /** A request: its kind, its struct with the counts and the pointers, and its arrays. */
  lemma ReadFields(path: seq<byte>, offset: nat, length: nat, pathAt: nat, dataAt: nat)
    ensures var s, n := OpBytes(Read(path, offset, length), pathAt, dataAt), |path|;
      && |s| == 44 + n && s[..4] == Encode(0, 4)
      && s[4..12] == EncodeWord(n) && s[12..20] == EncodeWord(pathAt)
      && s[20..28] == EncodeWord(offset) && s[28..36] == EncodeWord(length)
      && s[36..44] == EncodeWord(n) && s[44..] == path
  {
    hide Encode, EncodeWord;
  }

  lemma WriteFields(path: seq<byte>, offset: nat, data: seq<byte>, pathAt: nat, dataAt: nat)
    ensures var s, n := OpBytes(Write(path, offset, data), pathAt, dataAt), |path|;
      && |s| == 60 + n + |data| && s[..4] == Encode(1, 4)
      && s[4..12] == EncodeWord(n) && s[12..20] == EncodeWord(pathAt)
      && s[20..28] == EncodeWord(offset) && s[28..36] == EncodeWord(|data|) && s[36..44] == EncodeWord(dataAt)
      && s[44..52] == EncodeWord(n) && s[52..52 + n] == path
      && s[52 + n..60 + n] == EncodeWord(|data|) && s[60 + n..] == data
  {
    hide Encode, EncodeWord;
  }

  lemma CreateFields(path: seq<byte>, flags: byte, pathAt: nat, dataAt: nat)
    ensures var s, n := OpBytes(Create(path, flags), pathAt, dataAt), |path|;
      && |s| == 29 + n && s[..4] == Encode(2, 4)
      && s[4..12] == EncodeWord(n) && s[12..20] == EncodeWord(pathAt) && s[20] == flags
      && s[21..29] == EncodeWord(n) && s[29..] == path
  {
    hide Encode, EncodeWord;
  }

  /** Removals, stats and listings differ in their kind only. */
  lemma PathFields(op: Op, pathAt: nat, dataAt: nat)
    requires op.Remove? || op.Stat? || op.ReadDir?
    ensures var s, n := OpBytes(op, pathAt, dataAt), |op.path|;
      && |s| == 28 + n && s[..4] == Encode(if op.Remove? then 3 else if op.Stat? then 4 else 5, 4)
      && s[4..12] == EncodeWord(n) && s[12..20] == EncodeWord(pathAt)
      && s[20..28] == EncodeWord(n) && s[28..] == op.path
  {
    hide Encode, EncodeWord;
  }

  /** A string: its length, a pointer, its length again, its bytes. An error is sent with a NUL behind it, and
      a greeting is the NUL alone. */
  lemma StringFields(message: seq<byte>, pointer: nat)
    ensures var s, n := ReplyBytes(Failed(message), pointer, 0), |message| + 1;
      && |s| == 24 + n && s[..8] == EncodeWord(n) && s[8..16] == EncodeWord(pointer) && s[16..24] == EncodeWord(n)
      && s[24..] == message + [0]
    ensures ReplyBytes(Done(Nothing), pointer, 0) == ReplyBytes(Failed([]), pointer, 0)
  {
    hide EncodeWord;
    assert [] + [0 as byte] == [0];
  }

  /** The answer to a stat: the size, the number of blocks, a pointer, the number again, and the blocks. */
  lemma InfoFields(size: nat, blocks: seq<nat>, pointer: nat)
    ensures var s, n := PayloadBytes(Info(size, blocks), pointer), |blocks|;
      && |s| == 32 + 8 * n && s[..8] == EncodeWord(size) && s[8..16] == EncodeWord(n)
      && s[16..24] == EncodeWord(pointer) && s[24..32] == EncodeWord(n)
      && forall i :: 0 <= i < n ==> s[32 + 8 * i..40 + 8 * i] == EncodeWord(blocks[i])
  {
    hide EncodeWord;
    var s, n := PayloadBytes(Info(size, blocks), pointer), |blocks|;
    assert s[32..] == Words(blocks);
    forall i | 0 <= i < n
      ensures s[32 + 8 * i..40 + 8 * i] == EncodeWord(blocks[i])
    {
      WordsAt(blocks, i);
      assert s[32 + 8 * i..40 + 8 * i] == s[32..][8 * i..8 * i + 8];
    }
  }

  lemma {:induction false} WordsAt(ws: seq<nat>, i: nat)
    requires i < |ws|
    ensures Words(ws)[8 * i..8 * i + 8] == EncodeWord(ws[i])
  {
    hide EncodeWord;
    if i > 0 {
      WordsAt(ws[1..], i - 1);
      assert Words(ws)[8 * i..8 * i + 8] == Words(ws[1..])[8 * (i - 1)..8 * (i - 1) + 8];
    }
  }

  /** The answer to a listing: the number of items, a pointer, the number again, and the items. */
  lemma ListingFields(items: seq<Item>, pointer: nat)
    requires AllOk(items)
    ensures var s, n := PayloadBytes(Listing(items), pointer), |items|;
      && |s| == 24 + 264 * n && s[..8] == EncodeWord(n) && s[8..16] == EncodeWord(pointer)
      && s[16..24] == EncodeWord(n)
      && forall i :: 0 <= i < n ==> s[24 + 264 * i..288 + 264 * i] == ItemBytes(items[i])
  {
    hide EncodeWord, ItemBytes;
    var s, n := PayloadBytes(Listing(items), pointer), |items|;
    assert s[24..] == AllBytes(items);
    forall i | 0 <= i < n
      ensures s[24 + 264 * i..288 + 264 * i] == ItemBytes(items[i])
    {
      BytesAt(items, i);
      assert s[24 + 264 * i..288 + 264 * i] == s[24..][264 * i..264 * i + 264];
    }
  }

  lemma {:induction false} BytesAt(items: seq<Item>, i: nat)
    requires AllOk(items) && i < |items|
    ensures AllBytes(items)[264 * i..264 * i + 264] == ItemBytes(items[i])
  {
    hide ItemBytes;
    if i > 0 {
      BytesAt(items[1..], i - 1);
      assert AllBytes(items)[264 * i..264 * i + 264] == AllBytes(items[1..])[264 * (i - 1)..264 * (i - 1) + 264];
    }
  }
}
