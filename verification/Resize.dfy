/** What growing and shrinking do to a disk: the steps of truncate_file as disk transformations. */
module Resize {
  import opened Bytes
  import opened Layout
  import opened Disk
  import opened Chains
  import opened Allocator

  ghost predicate SamePayload(g: Geometry, d: Disk, e: Disk, c: seq<int>)
    requires g.Ok() && d.Shaped(g) && e.Shaped(g)
  {
    forall i :: 0 <= i < |c| ==>
      c[i] in d.blocks && c[i] in e.blocks && e.Payload(g, c[i], i) == d.Payload(g, c[i], i)
  }

  /** The chain of file h once it has newSize bytes. */
  ghost function ResizedChain(g: Geometry, d: Disk, c: seq<int>, newSize: nat): seq<int>
    requires g.Ok()
  {
    var n := g.BlocksRequired(newSize);
    if n <= |c| then c[..n] else c + Fresh(d.used, g.blocksCount, n - |c|)
  }

  /** File h, on chain c of disk d, became newSize bytes on chain k of disk e: it kept its flags and
      the payload of the blocks both chains have. */
  ghost predicate Resized(g: Geometry, d: Disk, live: map<int, seq<int>>, e: Disk, h: int, newSize: nat)
    requires g.Ok() && Wf(g, d, live) && h in live
  {
    var c := live[h];
    var k := ResizedChain(g, d, c, newSize);
    && Replaces(g, d, live, e, h, k)
    && e.Size(g, h) == newSize && e.Flags(g, h) == d.Flags(g, h)
    && SamePayload(g, d, e, Shorter(c, k))
    && Aside(g, d, e, k)
  }

  /** Only blocks of chain k changed, and its tail still holds whatever continuation word that block
      held before. */
  ghost predicate Aside(g: Geometry, d: Disk, e: Disk, k: seq<int>)
    requires g.Ok() && d.Shaped(g) && e.Shaped(g)
  {
    && SameOutside(d, e, Set(k)) && k != [] && k[|k| - 1] in d.blocks
    && e.Cont(g, k[|k| - 1]) == d.Cont(g, k[|k| - 1])
  }

  // ---- Header writes ----

  ghost predicate HeaderOffset(g: Geometry, o: nat) { o == SIZE_AT || o == g.lastAt }

  /** Storing size or last_inode in the first block moves no link and no payload. */
  lemma HeaderWrite(g: Geometry, d: Disk, c: seq<int>, o: nat, w: nat)
    requires g.Ok() && d.Shaped(g) && Linked(g, d, c) && HeaderOffset(g, o) && w < LIMIT
    ensures var e := d.Write(g, c[0], o, EncodeWord(w));
      && Linked(g, e, c) && SamePayload(g, d, e, c)
      && forall i :: 0 <= i < |c| ==> e.Cont(g, c[i]) == d.Cont(g, c[i])
  {
    var h := c[0];
    if o == SIZE_AT { StoreSize(g, d, h, w); } else { StoreLast(g, d, h, w); }
    var e := d.Write(g, h, o, EncodeWord(w));
    forall i | 0 <= i < |c|
      ensures e.Cont(g, c[i]) == d.Cont(g, c[i])
    {
      if i > 0 { assert c[0] != c[i]; }
    }
  }

  // ---- Growing ----

  /** The chain so far: the old one and what the allocator handed out since. */
  ghost predicate GrowingChain(g: Geometry, d0: Disk, c: seq<int>, d: Disk, cur: seq<int>)
    requires g.Ok()
  {
    && d.Shaped(g) && Linked(g, d, cur)
    && |c| <= |cur| && cur == c + Fresh(d0.used, g.blocksCount, |cur| - |c|)
    && (forall x :: x in cur[|c|..] ==> x !in d0.used)
    && SameOutside(d0, d, Set(cur))
    && d.used == d0.used + Set(cur)
  }

  ghost predicate GrowingFile(g: Geometry, d0: Disk, c: seq<int>, d: Disk, t: int, newSize: nat)
    requires g.Ok() && d0.Shaped(g) && d.Shaped(g)
  {
    && c != [] && c[0] in d0.blocks && c[0] in d.blocks
    && d.Size(g, c[0]) == newSize && d.Flags(g, c[0]) == d0.Flags(g, c[0]) && d.Last(g, c[0]) == d0.Last(g, c[0])
    && SamePayload(g, d0, d, c)
    && t in d0.blocks && t in d.blocks && d.Cont(g, t) == d0.Cont(g, t)
  }

  ghost predicate Growing(g: Geometry, d0: Disk, c: seq<int>, d: Disk, cur: seq<int>, newSize: nat)
    requires g.Ok() && d0.Shaped(g)
  {
    && GrowingChain(g, d0, c, d, cur)
    && GrowingFile(g, d0, c, d, cur[|cur| - 1], newSize)
  }

  lemma LinkedBasics(g: Geometry, d: Disk, c: seq<int>)
    requires g.Ok() && d.Shaped(g) && Linked(g, d, c)
    ensures c != [] && Distinct(c) && InBlocks(d, c)
    ensures forall i :: 0 <= i < |c| ==> c[i] in d.blocks && g.IsData(c[i])
  {
  }

  lemma GrowingLinked(g: Geometry, d: Disk, c: seq<int>, e: Disk, cur: seq<int>, newSize: nat)
    requires g.Ok() && d.Shaped(g) && Growing(g, d, c, e, cur, newSize)
    ensures e.Shaped(g) && Linked(g, e, cur) && cur != [] && cur[|cur| - 1] in e.blocks
  {
  }

  lemma GrowStart(g: Geometry, d0: Disk, c: seq<int>, newSize: nat)
    requires g.Ok() && d0.Shaped(g) && Linked(g, d0, c) && Set(c) <= d0.used && newSize < LIMIT
    ensures Growing(g, d0, c, d0.Write(g, c[0], SIZE_AT, EncodeWord(newSize)), c, newSize)
  {
    HeaderWrite(g, d0, c, SIZE_AT, newSize);
    StoreSize(g, d0, c[0], newSize);
    assert c == c + Fresh(d0.used, g.blocksCount, 0);
    assert d0.used == d0.used + Set(c);
  }

  ghost function GrownDisk(g: Geometry, d: Disk, cur: seq<int>, b: int): Disk
    requires g.Ok() && d.Shaped(g) && Linked(g, d, cur) && g.IsData(b)
  {
    d.Mark(b, true).Write(g, cur[|cur| - 1], 0, EncodeWord(b))
  }

  /** Storing a continuation word changes no payload and no other header field. */
  lemma StoreContPayload(g: Geometry, d: Disk, c: seq<int>, t: int, w: nat)
    requires g.Ok() && d.Shaped(g) && InBlocks(d, c) && t in d.blocks && w < LIMIT
    ensures SamePayload(g, d, d.Write(g, t, 0, EncodeWord(w)), c)
  {
    StoreCont(g, d, t, w);
    var e := d.Write(g, t, 0, EncodeWord(w));
    forall i | 0 <= i < |c|
      ensures e.Payload(g, c[i], i) == d.Payload(g, c[i], i)
    {
      if c[i] == t && i > 0 {
        assert e.Payload(g, t, i) == e.Payload(g, t, 1) && d.Payload(g, t, i) == d.Payload(g, t, 1);
      }
    }
  }

  lemma GrowLink(g: Geometry, d: Disk, cur: seq<int>, b: int)
    requires g.Ok() && d.Shaped(g) && Linked(g, d, cur) && g.IsData(b) && b !in cur && b < LIMIT
    ensures Linked(g, GrownDisk(g, d, cur, b), cur + [b])
  {
    var e := GrownDisk(g, d, cur, b);
    var m := |cur| - 1;
    StoreCont(g, d.Mark(b, true), cur[m], b);
    forall i | 0 <= i < |cur|
      ensures e.Cont(g, cur[i]) == (cur + [b])[i + 1]
    {
      if i < m {
        assert cur[i] != cur[m];
        assert d.Cont(g, cur[i]) == cur[i + 1];
      }
    }
    assert forall i :: 0 <= i < |cur| ==> (cur + [b])[i] == cur[i];
  }

  lemma GrowFresh(used: set<int>, n: nat, c: seq<int>, cur: seq<int>, b: int)
    requires |c| <= |cur| && cur == c + Fresh(used, n, |cur| - |c|) && Set(c) <= used
    requires b == FirstFree(used + Set(cur), 0, n)
    ensures cur + [b] == c + Fresh(used, n, |cur| + 1 - |c|)
    ensures used + Set(cur) + {b} == used + Set(cur + [b])
  {
    hide Fresh, FirstFree;
    var f := Fresh(used, n, |cur| - |c|);
    FreshSnoc(used, n, |cur| - |c|);
    assert used + Set(cur) == used + Set(f);
    assert cur + [b] == c + (f + [b]);
    assert Set(cur + [b]) == Set(cur) + {b};
  }

  lemma GrowHeader(g: Geometry, d: Disk, cur: seq<int>, h: int, b: int)
    requires g.Ok() && d.Shaped(g) && Linked(g, d, cur) && g.IsData(b) && b !in cur && b < LIMIT
    requires h in d.blocks
    ensures var e := GrownDisk(g, d, cur, b);
      && e.Size(g, h) == d.Size(g, h) && e.Flags(g, h) == d.Flags(g, h) && e.Last(g, h) == d.Last(g, h)
      && e.Cont(g, b) == d.Cont(g, b)
  {
    StoreCont(g, d.Mark(b, true), cur[|cur| - 1], b);
  }

  lemma SamePayloadTrans(g: Geometry, d: Disk, e: Disk, f: Disk, c: seq<int>)
    requires g.Ok() && d.Shaped(g) && e.Shaped(g) && f.Shaped(g)
    requires SamePayload(g, d, e, c) && SamePayload(g, e, f, c)
    ensures SamePayload(g, d, f, c)
  {
  }

  lemma GrowOutside(g: Geometry, d0: Disk, d: Disk, cur: seq<int>, b: int)
    requires g.Ok() && d.Shaped(g) && Linked(g, d, cur) && g.IsData(b) && b !in cur
    requires SameOutside(d0, d, Set(cur))
    ensures SameOutside(d0, GrownDisk(g, d, cur, b), Set(cur + [b]))
  {
    assert cur[|cur| - 1] in Set(cur);
    assert Set(cur + [b]) == Set(cur) + {b};
  }

  lemma GrowChainStep(g: Geometry, d0: Disk, c: seq<int>, d: Disk, cur: seq<int>, b: int)
    requires g.Ok() && d0.Shaped(g) && GrowingChain(g, d0, c, d, cur) && Set(c) <= d0.used
    requires b == FirstFree(d.used, 0, g.blocksCount) && g.IsData(b) && b !in d.used && b < LIMIT
    ensures b !in cur && GrowingChain(g, d0, c, GrownDisk(g, d, cur, b), cur + [b])
  {
    hide Linked, Fresh, FirstFree, SameOutside;
    assert b !in Set(cur);
    GrowLink(g, d, cur, b);
    GrowFresh(d0.used, g.blocksCount, c, cur, b);
    GrowOutside(g, d0, d, cur, b);
    assert (cur + [b])[|c|..] == cur[|c|..] + [b];
  }

  lemma GrowFileStep(g: Geometry, d0: Disk, c: seq<int>, d: Disk, cur: seq<int>, newSize: nat, b: int)
    requires g.Ok() && d0.Shaped(g) && d.Shaped(g) && Linked(g, d, cur) && g.IsData(b) && b !in cur && b < LIMIT
    requires GrowingFile(g, d0, c, d, cur[|cur| - 1], newSize)
    requires b in d0.blocks && d.blocks[b] == d0.blocks[b]
    ensures GrowingFile(g, d0, c, GrownDisk(g, d, cur, b), b, newSize)
  {
    hide Linked;
    LinkedBasics(g, d, cur);
    GrowHeader(g, d, cur, c[0], b);
    StoreContPayload(g, d.Mark(b, true), c, cur[|cur| - 1], b);
    var e := GrownDisk(g, d, cur, b);
    assert SamePayload(g, d, e, c);
    SamePayloadTrans(g, d0, d, e, c);
  }

  /** One round of the extending loop. */
  lemma GrowStep(g: Geometry, d0: Disk, c: seq<int>, d: Disk, cur: seq<int>, newSize: nat, b: int)
    requires g.Ok() && d0.Shaped(g) && Growing(g, d0, c, d, cur, newSize) && Set(c) <= d0.used
    requires b == FirstFree(d.used, 0, g.blocksCount) && g.IsData(b) && b !in d.used && b < LIMIT
    ensures Growing(g, d0, c, GrownDisk(g, d, cur, b), cur + [b], newSize)
  {
    hide FirstFree, Fresh, SamePayload, Linked;
    assert b !in Set(cur);
    assert d.blocks[b] == d0.blocks[b];
    GrowChainStep(g, d0, c, d, cur, b);
    GrowFileStep(g, d0, c, d, cur, newSize, b);
  }

  // ---- Finishing ----

  /** Everything Resized asks of the new disk but the tail pointer. */
  ghost predicate AlmostResized(g: Geometry, d: Disk, live: map<int, seq<int>>, e: Disk, h: int, newSize: nat)
    requires g.Ok() && Wf(g, d, live) && h in live
  {
    var c := live[h];
    var k := ResizedChain(g, d, c, newSize);
    && e.Shaped(g) && Linked(g, e, k) && k[0] == h
    && |k| == g.BlocksRequired(newSize)
    && (forall x :: x in k ==> x in c || x !in d.used)
    && e.used == d.used - Set(c) + Set(k)
    && e.Size(g, h) == newSize && e.Flags(g, h) == d.Flags(g, h)
    && SamePayload(g, d, e, Shorter(c, k))
    && Aside(g, d, e, k)
  }

  lemma {:induction false} CountBelowBase(g: Geometry, n: nat)
    requires 0 < g.blockSize
    ensures n <= g.Base(n)
  {
    if n > 0 { CountBelowBase(g, n - 1); }
  }

  lemma SamePayloadPrefix(g: Geometry, d: Disk, e: Disk, k: seq<int>, c: seq<int>)
    requires g.Ok() && d.Shaped(g) && e.Shaped(g) && SamePayload(g, d, e, k) && c <= k
    ensures SamePayload(g, d, e, c)
  {
  }

  ghost function Shorter(c: seq<int>, k: seq<int>): seq<int> { if |k| < |c| then k else c }

  lemma ResizedPrefix(g: Geometry, d: Disk, c: seq<int>, newSize: nat)
    requires g.Ok()
    ensures Shorter(c, ResizedChain(g, d, c, newSize)) <= c
    ensures Shorter(c, ResizedChain(g, d, c, newSize)) <= ResizedChain(g, d, c, newSize)
    ensures |ResizedChain(g, d, c, newSize)| == g.BlocksRequired(newSize)
  {
  }

  lemma TailFile(g: Geometry, d: Disk, k: seq<int>)
    requires g.Ok() && d.Shaped(g) && Linked(g, d, k) && |k| == g.BlocksRequired(d.Size(g, k[0]))
    ensures 0 <= k[|k| - 1] < LIMIT
    ensures var h, t := k[0], k[|k| - 1];
      var e := d.Write(g, h, g.lastAt, EncodeWord(t));
      && FileOk(g, e, h, k) && SamePayload(g, d, e, k)
      && e.Size(g, h) == d.Size(g, h) && e.Flags(g, h) == d.Flags(g, h) && e.Cont(g, t) == d.Cont(g, t)
  {
    var t := k[|k| - 1];
    CountBelowBase(g, g.blocksCount);
    HeaderWrite(g, d, k, g.lastAt, t);
    StoreLast(g, d, k[0], t);
  }

  lemma OutsideWrite(g: Geometry, d: Disk, e: Disk, s: set<int>, b: int, o: nat, data: seq<byte>)
    requires g.Ok() && e.Shaped(g) && SameOutside(d, e, s) && b in s && b in e.blocks && o + |data| <= g.blockSize
    ensures SameOutside(d, e.Write(g, b, o, data), s)
  {
  }

  lemma OutsideWider(d: Disk, e: Disk, s: set<int>, t: set<int>)
    requires SameOutside(d, e, s) && s <= t
    ensures SameOutside(d, e, t)
  {
  }

  /** Pointing last_inode at the tail completes the file. */
  lemma StoreTail(g: Geometry, d: Disk, live: map<int, seq<int>>, e: Disk, h: int, newSize: nat)
    requires g.Ok() && Wf(g, d, live) && h in live && AlmostResized(g, d, live, e, h, newSize)
    ensures var k := ResizedChain(g, d, live[h], newSize);
      k != [] && 0 <= k[|k| - 1] < LIMIT
      && Resized(g, d, live, e.Write(g, h, g.lastAt, EncodeWord(k[|k| - 1])), h, newSize)
  {
    hide ResizedChain, Wf, Space, FileOk, Linked, SamePayload, SameOutside;
    WfFile(g, d, live, h);
    var c := live[h];
    var k := ResizedChain(g, d, c, newSize);
    BlocksRequiredExact(g, newSize);
    LinkedBasics(g, e, k);
    TailFile(g, e, k);
    var f := e.Write(g, h, g.lastAt, EncodeWord(k[|k| - 1]));
    ResizedPrefix(g, d, c, newSize);
    SamePayloadPrefix(g, e, f, k, Shorter(c, k));
    SamePayloadTrans(g, d, e, f, Shorter(c, k));
    OutsideWrite(g, d, e, Set(k), h, g.lastAt, EncodeWord(k[|k| - 1]));
    OutsideWider(d, f, Set(k), Set(c) + Set(k));
  }

  lemma GrowSets(used: set<int>, c: seq<int>, cur: seq<int>)
    requires c <= cur && Set(c) <= used
    ensures Set(c) + Set(cur) == Set(cur)
    ensures used - Set(c) + Set(cur) == used + Set(cur)
    ensures forall x :: x in cur ==> x in c || x in cur[|c|..]
  {
    assert cur == c + cur[|c|..];
  }

  /** The extending loop ends with all of a resized file but its tail pointer. */
  lemma GrowDone(g: Geometry, d: Disk, live: map<int, seq<int>>, e: Disk, cur: seq<int>, h: int, newSize: nat)
    requires g.Ok() && Wf(g, d, live) && h in live && Growing(g, d, live[h], e, cur, newSize)
    requires |live[h]| <= |cur| == g.BlocksRequired(newSize)
    ensures cur == ResizedChain(g, d, live[h], newSize)
    ensures AlmostResized(g, d, live, e, h, newSize)
  {
    hide Wf, FileOk, Linked, SamePayload, SameOutside, Space, Set;
    var c := live[h];
    WfFile(g, d, live, h);
    GrowingLinked(g, d, c, e, cur, newSize);
    assert c <= cur;
    GrowSets(d.used, c, cur);
    if |c| == |cur| {
      assert c[..|c|] == c == c + Fresh(d.used, g.blocksCount, 0);
    }
  }

  /** Writing the size is all there is to do when the number of blocks stays. */
  lemma KeepDone(g: Geometry, d: Disk, live: map<int, seq<int>>, h: int, newSize: nat)
    requires g.Ok() && Wf(g, d, live) && h in live && newSize < LIMIT
    requires g.BlocksRequired(newSize) == |live[h]|
    ensures Resized(g, d, live, d.Write(g, h, SIZE_AT, EncodeWord(newSize)), h, newSize)
  {
    hide Wf, Linked, SamePayload, SameOutside, Growing, Space, Set, Fresh;
    var c := live[h];
    WfFile(g, d, live, h);
    var e := d.Write(g, h, SIZE_AT, EncodeWord(newSize));
    GrowStart(g, d, c, newSize);
    StoreSize(g, d, h, newSize);
    GrowDone(g, d, live, e, c, h, newSize);
    OutsideWider(d, e, Set(c), Set(c) + Set(c));
  }

  ghost function ShrunkDisk(g: Geometry, d: Disk, c: seq<int>, newSize: nat): Disk
    requires g.Ok() && d.Shaped(g) && Linked(g, d, c) && g.BlocksRequired(newSize) <= |c|
  {
    var e := d.Write(g, c[0], SIZE_AT, EncodeWord(newSize));
    e.(used := e.used - Set(c[g.BlocksRequired(newSize)..]))
  }

  lemma LinkedPrefix(g: Geometry, d: Disk, c: seq<int>, n: nat)
    requires g.Ok() && d.Shaped(g) && Linked(g, d, c) && 1 <= n <= |c|
    ensures Linked(g, d, c[..n])
  {
    forall i | 0 <= i < n - 1
      ensures d.Cont(g, c[..n][i]) == c[..n][i + 1]
    {
      assert d.Cont(g, c[i]) == c[i + 1];
    }
  }

  lemma UsedIrrelevant(g: Geometry, d: Disk, u: set<int>, c: seq<int>)
    requires g.Ok() && d.Shaped(g) && u <= d.used && Linked(g, d, c)
    ensures var e := d.(used := u);
      e.Shaped(g) && Linked(g, e, c) && SamePayload(g, d, e, c)
  {
    var e := d.(used := u);
    forall i | 0 <= i < |c| - 1
      ensures e.Cont(g, c[i]) == c[i + 1]
    {
      assert d.Cont(g, c[i]) == c[i + 1];
    }
  }

  lemma ShrinkFile(g: Geometry, d: Disk, c: seq<int>, newSize: nat)
    requires g.Ok() && d.Shaped(g) && Linked(g, d, c) && newSize < LIMIT && g.BlocksRequired(newSize) <= |c|
    ensures 1 <= g.BlocksRequired(newSize)
    ensures var e, n, h := ShrunkDisk(g, d, c, newSize), g.BlocksRequired(newSize), c[0];
      && e.Shaped(g) && Linked(g, e, c[..n]) && SamePayload(g, d, e, c[..n])
      && e.Size(g, h) == newSize && e.Flags(g, h) == d.Flags(g, h) && e.Cont(g, c[n - 1]) == d.Cont(g, c[n - 1])
  {
    hide Linked, SamePayload, Set;
    LinkedBasics(g, d, c);
    var n, h := g.BlocksRequired(newSize), c[0];
    BlocksRequiredExact(g, newSize);
    var e0 := d.Write(g, h, SIZE_AT, EncodeWord(newSize));
    var e := ShrunkDisk(g, d, c, newSize);
    HeaderWrite(g, d, c, SIZE_AT, newSize);
    StoreSize(g, d, h, newSize);
    LinkedPrefix(g, e0, c, n);
    SamePayloadPrefix(g, d, e0, c, c[..n]);
    UsedIrrelevant(g, e0, e.used, c[..n]);
    SamePayloadTrans(g, d, e0, e, c[..n]);
    assert e.Cont(g, c[n - 1]) == e0.Cont(g, c[n - 1]);
  }

  lemma ShrinkOutside(g: Geometry, d: Disk, c: seq<int>, newSize: nat)
    requires g.Ok() && d.Shaped(g) && Linked(g, d, c) && newSize < LIMIT && g.BlocksRequired(newSize) <= |c|
    ensures SameOutside(d, ShrunkDisk(g, d, c, newSize), Set(c[..g.BlocksRequired(newSize)]))
    ensures ShrunkDisk(g, d, c, newSize).used == d.used - Set(c[g.BlocksRequired(newSize)..])
  {
    BlocksRequiredExact(g, newSize);
    assert c[..g.BlocksRequired(newSize)][0] == c[0];
  }

  lemma ShrinkDone(g: Geometry, d: Disk, live: map<int, seq<int>>, h: int, newSize: nat)
    requires g.Ok() && Wf(g, d, live) && h in live && newSize < LIMIT
    requires g.BlocksRequired(newSize) < |live[h]|
    ensures AlmostResized(g, d, live, ShrunkDisk(g, d, live[h], newSize), h, newSize)
  {
    hide Wf, FileOk, Linked, SamePayload, Distinct, Space, SameOutside;
    var c := live[h];
    var n := g.BlocksRequired(newSize);
    WfFile(g, d, live, h);
    LinkedBasics(g, d, c);
    BlocksRequiredExact(g, newSize);
    ShrinkFile(g, d, c, newSize);
    SplitUsed(d.used, c, n);
    assert c[..n][n - 1] == c[n - 1] && c[..n][0] == c[0];
    ShrinkOutside(g, d, c, newSize);
    assert forall x :: x in c[..n] ==> x in c;
  }

  lemma SplitUsed(used: set<int>, c: seq<int>, n: nat)
    requires Distinct(c) && n <= |c| && Set(c) <= used
    ensures used - Set(c[n..]) == used - Set(c) + Set(c[..n])
  {
    assert c == c[..n] + c[n..];
    forall x | x in c[..n]
      ensures x !in c[n..]
    {
      var i :| 0 <= i < n && c[i] == x;
      assert forall j :: n <= j < |c| ==> c[j] != c[i];
    }
  }

  lemma LinkedSuffix(g: Geometry, d: Disk, c: seq<int>, n: nat)
    requires g.Ok() && d.Shaped(g) && Linked(g, d, c) && n < |c|
    ensures Linked(g, d, c[n..]) && Terminated(g, d, c[n..]) == Terminated(g, d, c)
  {
    var t := c[n..];
    forall i | 0 <= i < |t| - 1
      ensures d.Cont(g, t[i]) == t[i + 1]
    {
      assert d.Cont(g, c[n + i]) == c[n + i + 1];
    }
    assert t[|t| - 1] == c[|c| - 1];
  }

  lemma LinkedNext(g: Geometry, d: Disk, c: seq<int>, i: nat)
    requires g.Ok() && d.Shaped(g) && Linked(g, d, c) && i < |c| - 1
    ensures c[i] in d.blocks && d.Cont(g, c[i]) == c[i + 1]
  {
  }

  /** The end of the chain that shrinking hands to purge_blocks. */
  lemma ShrinkRest(g: Geometry, d: Disk, c: seq<int>, newSize: nat)
    requires g.Ok() && d.Shaped(g) && Linked(g, d, c) && newSize < LIMIT && g.BlocksRequired(newSize) < |c|
    ensures 1 <= g.BlocksRequired(newSize)
    ensures var e, n := d.Write(g, c[0], SIZE_AT, EncodeWord(newSize)), g.BlocksRequired(newSize);
      && Linked(g, e, c) && Linked(g, e, c[n..])
      && e.Cont(g, c[n - 1]) == c[n] == c[n..][0]
      && Terminated(g, e, c[n..]) == Terminated(g, d, c)
  {
    hide Linked, SamePayload;
    LinkedBasics(g, d, c);
    BlocksRequiredExact(g, newSize);
    HeaderWrite(g, d, c, SIZE_AT, newSize);
    var e, n := d.Write(g, c[0], SIZE_AT, EncodeWord(newSize)), g.BlocksRequired(newSize);
    LinkedSuffix(g, e, c, n);
    LinkedNext(g, e, c, n - 1);
    assert e.Cont(g, c[|c| - 1]) == d.Cont(g, c[|c| - 1]);
  }
}
