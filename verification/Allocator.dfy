/** The lookup table as an allocator of blocks. */
module Allocator {
  import opened Bytes
  import opened Disk
  import opened Chains
  import opened Results
  import opened Image

  /** The least number at or above i that is below n and not used, or n when there is none. */
  ghost function FirstFree(used: set<int>, i: nat, n: nat): (b: nat)
    decreases n - i
  {
    if i >= n || i !in used then i else FirstFree(used, i + 1, n)
  }

  lemma {:induction false} FirstFreeLeast(used: set<int>, i: nat, n: nat, b: nat)
    requires i <= b <= n
    requires b == n || b !in used
    requires forall j :: i <= j < b ==> j in used
    ensures FirstFree(used, i, n) == b
    decreases n - i
  {
    if i < b { FirstFreeLeast(used, i + 1, n, b); }
  }

  /** The blocks that k allocations in a row hand out. */
  ghost function Fresh(used: set<int>, n: nat, k: nat): (c: seq<int>)
    ensures |c| == k
    decreases k
  {
    if k == 0 then [] else
      var b := FirstFree(used, 0, n);
      [b] + Fresh(used + {b}, n, k - 1)
  }

  /** Fresh built from its other end: the last allocation sees what the earlier ones took. */
  lemma {:induction false} FreshSnoc(used: set<int>, n: nat, k: nat)
    ensures var c := Fresh(used, n, k);
      Fresh(used, n, k + 1) == c + [FirstFree(used + Set(c), 0, n)]
    decreases k
  {
    var b := FirstFree(used, 0, n);
    if k == 0 {
      assert used + Set([]) == used;
      assert Fresh(used, n, 1) == [b] + Fresh(used + {b}, n, 0);
    } else {
      FreshSnoc(used + {b}, n, k - 1);
      var c := Fresh(used, n, k);
      var t := Fresh(used + {b}, n, k - 1);
      assert c == [b] + t;
      assert used + {b} + Set(t) == used + Set(c);
    }
  }

  lemma FirstFreeAbove(m: nat, n: nat)
    ensures FirstFree(Below(m), 0, n) == if m < n then m else n
  {
    FirstFreeLeast(Below(m), 0, n, if m < n then m else n);
  }

  /** While nothing has a hole, allocation counts upwards. */
  lemma {:induction false} FreshAbove(m: nat, n: nat, k: nat)
    ensures forall i :: 0 <= i < k ==> Fresh(Below(m), n, k)[i] == if m + i < n then m + i else n
    decreases k
  {
    hide FirstFree;
    if k > 0 {
      FirstFreeAbove(m, n);
      if m < n {
        assert Below(m) + {m} == Below(m + 1);
        FreshAbove(m + 1, n, k - 1);
      } else {
        FullStays(Below(m), n, k);
      }
    }
  }

  lemma {:induction false} FullStays(used: set<int>, n: nat, k: nat)
    requires FirstFree(used, 0, n) == n
    ensures forall i :: 0 <= i < k ==> Fresh(used, n, k)[i] == n
    decreases k
  {
    hide FirstFree;
    if k > 0 {
      FullWithMore(used, 0, n);
      FullStays(used + {n}, n, k - 1);
    }
  }

  lemma {:induction false} FullWithMore(used: set<int>, i: nat, n: nat)
    requires FirstFree(used, i, n) == n
    ensures FirstFree(used + {n}, i, n) == n
    decreases n - i
  {
    if i < n { FullWithMore(used, i + 1, n); }
  }

  method MarkBlockInLookupTable(fs: FsDescriptors, blockIndex: nat, occupied: bool) returns (r: Result<()>)
    requires fs.Mapped()
    modifies fs.container
    ensures r == if blockIndex < fs.g.blocksCount then Ok(()) else Fatal(Internal)
    ensures fs.D() == if r.Ok? then old(fs.D()).Mark(blockIndex, occupied) else old(fs.D())
  {
    if blockIndex >= fs.g.blocksCount {
      return Fatal(Internal);
    }
    fs.StoreTableBit(blockIndex, occupied);
    return Ok(());
  }

  /** The scan returns the first clear bit of the table, padding bits of its last byte included. */
  method GetNextFreeBlockIndex(fs: FsDescriptors) returns (r: Result<nat>)
    requires fs.Mapped()
    ensures r.Ok? ==> r.value < 8 * fs.g.TableLen() && r.value !in fs.D().used
                      && forall j :: 0 <= j < r.value ==> j in fs.D().used
    ensures r.Fatal? ==> r.error == NoSpace && forall j :: 0 <= j < 8 * fs.g.TableLen() ==> j in fs.D().used
  {
    hide View, Bit;
    var i := 0;
    while i < fs.g.TableLen()
      invariant i <= fs.g.TableLen()
      invariant forall j :: 0 <= j < 8 * i ==> j in fs.D().used
    {
      var curByte := fs.TableByte(i);
      var k := 0;
      while k < 8
        invariant k <= 8
        invariant forall j :: 0 <= j < 8 * i + k ==> j in fs.D().used
      {
        fs.TableByteBit(i, k);
        if !Bit(curByte, k) {
          return Ok(i * 8 + k);
        }
        k := k + 1;
      }
      i := i + 1;
    }
    return Fatal(NoSpace);
  }

  /** No clear bit: every block is used, and the table has no padding bits. */
  lemma NoneFree(used: set<int>, n: nat, bits: nat)
    requires used <= Below(n) && n <= bits
    requires forall j :: 0 <= j < bits ==> j in used
    ensures |used| == n == bits
  {
    SubsetSize(Below(n), used);
    SubsetSize(used, Below(n));
    assert n < bits ==> n in used;
  }

  /** The first clear bit is the least unused block, or the first padding bit when all are used. */
  lemma SomeFree(used: set<int>, n: nat, b: nat)
    requires used <= Below(n) && b !in used
    requires forall j :: 0 <= j < b ==> j in used
    ensures b <= n && FirstFree(used, 0, n) == b
    ensures |used| == n <==> b == n
  {
    assert n < b ==> n in used;
    if b == n { SubsetSize(Below(n), used); }
    SubsetSize(used, Below(n));
    FirstFreeLeast(used, 0, n, b);
  }

  /** Scan, then mark: the least unused block becomes used. It fails exactly when every block is
      used, in the scan when the table has no padding bits and in the marking when it has. */
  method AllocateBlock(fs: FsDescriptors) returns (r: Result<nat>)
    requires fs.Mapped() && fs.D().used <= Below(fs.g.blocksCount)
    modifies fs.container
    ensures r.Fatal? <==> |old(fs.D()).used| == fs.g.blocksCount
    ensures r.Fatal? ==> r.error == (if fs.g.blocksCount % 8 == 0 then NoSpace else Internal)
    ensures r.Fatal? ==> fs.D() == old(fs.D())
    ensures r.Ok? ==> r.value == FirstFree(old(fs.D()).used, 0, fs.g.blocksCount) < fs.g.blocksCount
    ensures r.Ok? ==> r.value !in old(fs.D()).used && fs.D() == old(fs.D()).Mark(r.value, true)
  {
    hide View, FirstFree, Below;
    ghost var d, n := fs.D(), fs.g.blocksCount;
    var found := GetNextFreeBlockIndex(fs);
    assert fs.D() == d;
    if found.Fatal? {
      NoneFree(d.used, n, 8 * fs.g.TableLen());
      return found;
    }
    SomeFree(d.used, n, found.value);
    var marked := MarkBlockInLookupTable(fs, found.value, true);
    r := if marked.Ok? then found else Fatal(marked.error);
  }
}
