/** The mapped container and the primitive accesses the file system makes to it. */
module Image {
  import opened Bytes
  import opened Layout
  import opened Disk
  import opened Chains

  class FsDescriptors {
    const g: Geometry
    const container: array<byte>
    ghost var live: map<int, seq<int>>   // the files, by first block, with their counted chains

    ghost predicate Mapped() {
      g.Ok() && container.Length == g.Base(g.blocksCount)
    }

    ghost function D(): (d: Disk)
      requires Mapped()
      reads container
      ensures d.Shaped(g)
    {
      View(g, container[..])
    }

    /** The superblock still says what was stored in it. */
    ghost predicate SuperblockOk()
      requires Mapped()
      reads container
    {
      D().super[..SUPER_USED] == SuperblockBytes(g)
    }

    ghost predicate Valid()
      reads this, container
    {
      Mapped() && SuperblockOk() && Wf(g, D(), live)
    }

    ghost function Files(): (files: Files)
      requires Valid()
      reads this, container
      ensures files.Keys == live.Keys
    {
      FilesOf(g, D(), live)
    }

    ghost predicate IsTerminated(h: int)
      requires Valid() && h in live
      reads this, container
    {
      Terminated(g, D(), live[h])
    }

    constructor (g: Geometry, container: array<byte>)
      requires g.Ok() && container.Length == g.Base(g.blocksCount)
      ensures this.g == g && this.container == container && live == map[]
    {
      this.g, this.container := g, container;
      live := map[];
    }

    function Word(b: int, at: nat): (w: nat)
      requires Mapped() && g.IsData(b) && at + WORD <= g.blockSize
      reads container
      ensures w == D().Word(b, at)
      ensures w < LIMIT
    {
      hide View, Decode, Encode, Pow256;
      ViewSlice(g, container[..], b, at, WORD);
      var word := container[..][g.Base(b) + at..g.Base(b) + at + WORD];
      WordBound(word);
      Decode(word)
    }

    function Byte(b: int, at: nat): (x: byte)
      requires Mapped() && g.IsData(b) && at < g.blockSize
      reads container
      ensures x == D().blocks[b][at]
    {
      hide View;
      ViewSlice(g, container[..], b, at, 1);
      assert D().blocks[b][at] == D().blocks[b][at..at + 1][0];
      container[g.Base(b) + at]
    }

    /** memcpy into block b. */
    method Store(b: int, at: nat, data: seq<byte>)
      requires Mapped() && g.IsData(b) && at + |data| <= g.blockSize
      modifies container
      ensures D() == old(D()).Write(g, b, at, data)
    {
      hide View;
      ghost var m := container[..];
      BaseOrder(g, b, g.blocksCount);
      var base := g.Base(b) + at;
      forall i | 0 <= i < |data| {
        container[base + i] := data[i];
      }
      assert container[..] == Patch(m, base, data);
      ViewWrite(g, m, b, at, data);
    }

    method StoreWord(b: int, at: nat, w: nat)
      requires Mapped() && g.IsData(b) && at + WORD <= g.blockSize
      modifies container
      ensures D() == old(D()).Write(g, b, at, EncodeWord(w))
    {
      Store(b, at, EncodeWord(w));
    }

    /** memcpy out of block b. */
    method Load(b: int, at: nat, n: nat, buffer: array<byte>, to: nat)
      requires Mapped() && g.IsData(b) && at + n <= g.blockSize
      requires to + n <= buffer.Length && buffer != container
      modifies buffer
      ensures buffer[..] == Patch(old(buffer[..]), to, D().blocks[b][at..at + n])
    {
      hide View;
      ViewSlice(g, container[..], b, at, n);
      var base := g.Base(b) + at;
      ghost var m := buffer[..];
      forall i | 0 <= i < n {
        buffer[to + i] := container[base + i];
      }
      assert container[base..base + n] == container[..][base..base + n];
      assert buffer[..] == Patch(m, to, container[base..base + n]);
    }

    function TableByte(i: nat): byte
      requires Mapped() && i < g.TableLen()
      reads container
    {
      MetaExact(g);
      BaseMonotone(g, g.MetaPages(), g.blocksCount);
      container[g.superSize + i]
    }

    /** Bit k of byte i of the lookup table is about block 8 * i + k. */
    lemma TableByteBit(i: nat, k: nat)
      requires Mapped() && i < g.TableLen() && k < 8
      ensures Bit(TableByte(i), k) <==> 8 * i + k in D().used
    {
      hide View, Bit;
      ViewTable(g, container[..], i, k);
    }

    method StoreTableBit(i: nat, occupied: bool)
      requires Mapped() && i < g.blocksCount
      modifies container
      ensures D() == old(D()).Mark(i, occupied)
    {
      hide View, Bit, ShiftMark, MarkByte;
      ghost var m := container[..];
      ViewMark(g, m, i, occupied);
      var byteIndex, bitIndex := g.superSize + i / 8, i % 8;
      container[byteIndex] := ShiftMark(container[byteIndex], bitIndex, occupied);
      assert container[..] == m[byteIndex := MarkByte(m[byteIndex], bitIndex, occupied)];
    }
  }
}
