/** Sizes and positions: how blocks tile the container and how file bytes tile a chain of blocks. */
module Layout {
  import opened Bytes

  const SIZE_AT := 8      // INodeMain.size
  const LINKS_AT := 16    // INodeMain.links_count
  const FLAGS_AT := 20    // INodeMain.flags
  const ITEM_SIZE := WORD + 256  // sizeof(DirectoryItem)
  const SUPER_USED := 36  // superblock bytes in use: two words and five 4-byte sizes
  const HEADER := WORD    // sizeof(INode): the continuation word every block starts with

  /** The superblock's two numbers and the struct sizes that differ between the two builds:
      36, 29 and 21 when the structs are packed, 40, 32 and 24 when they are not. */
  datatype Geometry = Geometry(
    blockSize: nat,
    blocksCount: nat,
    superSize: nat,       // sizeof(Superblock)
    mainSize: nat,        // sizeof(INodeMain)
    lastAt: nat           // offsetof(INodeMain, last_inode)
  ) {
    predicate Ok() {
      && SUPER_USED <= superSize < blockSize
      && FLAGS_AT < lastAt
      && lastAt + WORD <= mainSize < blockSize
      && 0 < blocksCount
      && Base(blocksCount) < HALF
    }

    /** First byte of block b: b * blockSize, see BaseIsProduct. */
    function Base(b: nat): nat {
      if b == 0 then 0 else Base(b - 1) + blockSize
    }

    function TableLen(): nat { (blocksCount + 7) / 8 }

    /** The fewest blocks that hold n bytes. */
    function PagesFor(n: nat): nat
      requires 0 < blockSize
    {
      if n == 0 then 0 else 1 + PagesFor(if n < blockSize then 0 else n - blockSize)
    }

    function MetaPages(): nat
      requires Ok()
    {
      PagesFor(superSize + TableLen())
    }

    ghost predicate IsData(b: int)
      requires Ok()
    {
      MetaPages() <= b < blocksCount
    }

    /** Header bytes of the i-th block of a file, and the payload bytes that follow them. */
    function Hdr(i: nat): nat { if i == 0 then mainSize else HEADER }

    function Room(i: nat): nat
      requires Ok()
    {
      blockSize - Hdr(i)
    }

    /** Payload bytes of the first n blocks of a file. */
    function Capacity(n: nat): nat
      requires Ok()
    {
      if n == 0 then 0 else Capacity(n - 1) + Room(n - 1)
    }

    /** The least positive number of blocks that holds size payload bytes. */
    function BlocksRequired(size: nat): nat
      requires Ok()
    {
      BlocksFrom(1, size)
    }

    function BlocksFrom(n: nat, size: nat): nat
      requires Ok()
      decreases size - Capacity(n)
    {
      if size <= Capacity(n) then n else BlocksFrom(n + 1, size)
    }
  }

  lemma {:induction false} BaseIsProduct(g: Geometry, b: nat)
    ensures g.Base(b) == b * g.blockSize
  {
    if b > 0 {
      BaseIsProduct(g, b - 1);
      assert (b - 1) * g.blockSize + g.blockSize == b * g.blockSize;
    }
  }

  /** Distinct blocks occupy disjoint stretches of the container, in order. */
  lemma {:induction false} BaseOrder(g: Geometry, b: nat, c: nat)
    requires b < c
    ensures g.Base(b) + g.blockSize <= g.Base(c)
  {
    if b + 1 < c { BaseOrder(g, b, c - 1); }
  }

  lemma {:induction false} PagesForExact(g: Geometry, n: nat)
    requires 0 < g.blockSize
    ensures n <= g.Base(g.PagesFor(n))
    ensures 0 < n ==> 0 < g.PagesFor(n) && g.Base(g.PagesFor(n) - 1) < n
  {
    if g.blockSize <= n { PagesForExact(g, n - g.blockSize); }
  }

  lemma CeilDiv(x: nat, d: nat)
    requires 0 < d
    ensures var q := (x + d - 1) / d; x <= q * d && (0 < x ==> 0 < q && (q - 1) * d < x)
  {
    var q := (x + d - 1) / d;
    var r := (x + d - 1) % d;
    assert x + d - 1 == q * d + r;
    assert (q - 1) * d == q * d - d;
  }

  /** The rounding-up division of the source counts pages exactly. */
  lemma PagesForIsCeil(g: Geometry, n: nat)
    requires 0 < g.blockSize && 0 < n
    ensures (n + g.blockSize - 1) / g.blockSize == g.PagesFor(n)
  {
    var q, p := (n + g.blockSize - 1) / g.blockSize, g.PagesFor(n);
    CeilDiv(n, g.blockSize);
    PagesForExact(g, n);
    BaseIsProduct(g, p);
    BaseIsProduct(g, p - 1);
    if q < p { ProductOrder(q, p - 1, g.blockSize); }
    if p < q { ProductOrder(p, q - 1, g.blockSize); }
  }

  lemma ProductOrder(a: nat, b: nat, d: nat)
    requires a <= b
    ensures a * d <= b * d
  {
  }

  lemma MetadataFits(g: Geometry)
    requires g.Ok()
    ensures g.superSize + g.TableLen() <= g.Base(g.blocksCount)
  {
    var s, n := g.superSize, g.blocksCount;
    BaseIsProduct(g, n);
    assert g.TableLen() <= n;
    ProductOrder(s + 1, g.blockSize, n);
    assert n * (s + 1) == n * s + n;
    ProductOrder(1, n, s);
  }

  /** The metadata pages are the fewest blocks that hold the superblock and the lookup table,
      and the container has room for them. */
  lemma MetaExact(g: Geometry)
    requires g.Ok()
    ensures 1 <= g.MetaPages() <= g.blocksCount
    ensures g.Base(g.MetaPages() - 1) < g.superSize + g.TableLen() <= g.Base(g.MetaPages())
  {
    var x, n := g.superSize + g.TableLen(), g.blocksCount;
    PagesForExact(g, x);
    MetadataFits(g);
    if n < g.MetaPages() {
      BaseMonotone(g, n, g.MetaPages() - 1);
      assert false;
    }
  }

  lemma {:induction false} CapacityClosed(g: Geometry, n: nat)
    requires g.Ok() && 1 <= n
    ensures g.Capacity(n) == g.blockSize - g.mainSize + (n - 1) * (g.blockSize - HEADER)
  {
    if n > 1 {
      CapacityClosed(g, n - 1);
      assert (n - 2) * (g.blockSize - HEADER) + (g.blockSize - HEADER) == (n - 1) * (g.blockSize - HEADER);
    } else {
      assert g.Capacity(0) == 0;
    }
  }

  lemma {:induction false} CapacityOrder(g: Geometry, m: nat, n: nat)
    requires g.Ok() && m < n
    ensures g.Capacity(m) + g.Room(m) <= g.Capacity(n)
    ensures g.Capacity(m) < g.Capacity(n)
  {
    if m + 1 < n { CapacityOrder(g, m, n - 1); }
  }

  lemma {:induction false} BlocksFromExact(g: Geometry, n: nat, size: nat)
    requires g.Ok()
    ensures var q := g.BlocksFrom(n, size);
      n <= q && size <= g.Capacity(q) && (q == n || g.Capacity(q - 1) < size)
    decreases size - g.Capacity(n)
  {
    if g.Capacity(n) < size { BlocksFromExact(g, n + 1, size); }
  }

  lemma BlocksRequiredExact(g: Geometry, size: nat)
    requires g.Ok()
    ensures 1 <= g.BlocksRequired(size)
    ensures size <= g.Capacity(g.BlocksRequired(size))
    ensures 1 < g.BlocksRequired(size) ==> g.Capacity(g.BlocksRequired(size) - 1) < size
  {
    BlocksFromExact(g, 1, size);
  }

  /** The formula of get_blocks_required gives the least positive number of blocks that holds
      size bytes. */
  function GetBlocksRequired(g: Geometry, size: nat): (n: nat)
    requires g.Ok()
    ensures n == g.BlocksRequired(size)
    ensures 1 <= n && size <= g.Capacity(n)
    ensures forall k :: 1 <= k && size <= g.Capacity(k) ==> n <= k
  {
    var firstBlockSize := g.blockSize - g.mainSize;
    var commonBlockSize := g.blockSize - HEADER;
    var n := if size <= firstBlockSize then 1
      else (size - firstBlockSize + commonBlockSize - 1) / commonBlockSize + 1;
    assert 1 <= n && size <= g.Capacity(n) && (n == 1 || g.Capacity(n - 1) < size) by {
      CapacityClosed(g, 1);
      if firstBlockSize < size {
        CeilDiv(size - firstBlockSize, commonBlockSize);
        CapacityClosed(g, n);
        CapacityClosed(g, n - 1);
      }
    }
    BlocksRequiredIs(g, size, n);
    BlocksRequiredLeast(g, size);
    n
  }

  lemma BlocksRequiredLeast(g: Geometry, size: nat)
    requires g.Ok()
    ensures forall k :: 1 <= k && size <= g.Capacity(k) ==> g.BlocksRequired(size) <= k
  {
    BlocksRequiredExact(g, size);
    var n := g.BlocksRequired(size);
    forall k | 1 <= k && size <= g.Capacity(k)
      ensures n <= k
    {
      if k < n - 1 { CapacityOrder(g, k, n - 1); }
    }
  }

  lemma BlocksRequiredIs(g: Geometry, size: nat, n: nat)
    requires g.Ok() && 1 <= n && size <= g.Capacity(n)
    requires n == 1 || g.Capacity(n - 1) < size
    ensures g.BlocksRequired(size) == n
  {
    BlocksRequiredExact(g, size);
    var q := g.BlocksRequired(size);
    if q < n - 1 { CapacityOrder(g, q, n - 1); }
    if n < q - 1 { CapacityOrder(g, n, q - 1); }
  }

  lemma BlocksRequiredMonotone(g: Geometry, a: nat, b: nat)
    requires g.Ok() && a <= b
    ensures g.BlocksRequired(a) <= g.BlocksRequired(b)
  {
    BlocksRequiredLeast(g, a);
    BlocksRequiredExact(g, b);
  }

  /** Where byte p of a file lives: the number of its block, and the offset inside that block. */
  function Position(g: Geometry, p: nat): (r: (nat, nat))
    requires g.Ok()
    ensures g.Hdr(r.0) <= r.1 < g.blockSize
    ensures p == g.Capacity(r.0) + (r.1 - g.Hdr(r.0))
  {
    var first := g.blockSize - g.mainSize;
    var common := g.blockSize - HEADER;
    FirstRoom(g);
    if p < first then
      (0, g.mainSize + p)
    else
      PositionBeyond(g, p - first);
      (1 + (p - first) / common, HEADER + (p - first) % common)
  }

  lemma FirstRoom(g: Geometry)
    requires g.Ok()
    ensures g.Capacity(0) == 0 && g.Capacity(1) == g.blockSize - g.mainSize
  {
  }

  lemma PositionBeyond(g: Geometry, q: nat)
    requires g.Ok()
    ensures var common := g.blockSize - HEADER;
      q % common < common && g.Capacity(1 + q / common) + q % common == g.blockSize - g.mainSize + q
  {
    var common := g.blockSize - HEADER;
    CapacityClosed(g, q / common + 1);
    assert q == q / common * common + q % common;
  }

  /** The position map sends the bytes of a file one to one into the payload of exactly the
      blocks get_blocks_required counts. */
  lemma PositionInjective(g: Geometry, size: nat, p: nat, q: nat)
    requires g.Ok() && p < size && q < size && p != q
    ensures Position(g, p) != Position(g, q)
    ensures Position(g, p).0 < g.BlocksRequired(size)
  {
    var n := g.BlocksRequired(size);
    BlocksRequiredExact(g, size);
    var i := Position(g, p).0;
    if n < i { CapacityOrder(g, n, i); }
  }

  /** The position map reaches every payload byte of every block. */
  lemma PositionOnto(g: Geometry, i: nat, o: nat)
    requires g.Ok() && g.Hdr(i) <= o < g.blockSize
    ensures Position(g, g.Capacity(i) + (o - g.Hdr(i))) == (i, o)
  {
    var r := Position(g, g.Capacity(i) + (o - g.Hdr(i)));
    PositionUnique(g, i, o, r.0, r.1);
  }

  lemma PositionUnique(g: Geometry, i: nat, o: nat, j: nat, u: nat)
    requires g.Ok() && g.Hdr(i) <= o < g.blockSize && g.Hdr(j) <= u < g.blockSize
    requires g.Capacity(i) + (o - g.Hdr(i)) == g.Capacity(j) + (u - g.Hdr(j))
    ensures i == j && o == u
  {
    if j < i { CapacityOrder(g, j, i); }
    if i < j { CapacityOrder(g, i, j); }
  }

  lemma {:induction false} CapacityBelowBase(g: Geometry, n: nat)
    requires g.Ok()
    ensures g.Capacity(n) <= g.Base(n)
  {
    if n > 0 { CapacityBelowBase(g, n - 1); }
  }

  lemma {:induction false} BaseMonotone(g: Geometry, a: nat, b: nat)
    requires a <= b
    ensures g.Base(a) <= g.Base(b)
  {
    if a < b { BaseOrder(g, a, b); }
  }

  /** The five struct sizes a container remembers of the platform that made it. */
  function PlatformValues(g: Geometry): (s: seq<byte>)
    ensures |s| == 20
  {
    Encode(WORD, 4) + Encode(g.superSize, 4) + Encode(HEADER, 4) + Encode(g.mainSize, 4) + Encode(ITEM_SIZE, 4)
  }

  function SuperblockBytes(g: Geometry): (s: seq<byte>)
    ensures |s| == SUPER_USED
  {
    EncodeWord(g.blockSize) + EncodeWord(g.blocksCount) + PlatformValues(g)
  }
}
