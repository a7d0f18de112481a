/** Files as linked chains of blocks, and what keeps a disk full of them consistent. */
module Chains {
  import opened Bytes
  import opened Layout
  import opened Disk

  /** What a user sees of a file. */
  datatype File = File(flags: byte, content: seq<byte>)

  type Files = map<int, File>

  const FLG_DIRECTORY: byte := 1
  const FLG_FILE: byte := 2

  predicate IsDirectory(f: File) { f.flags & FLG_DIRECTORY != 0 }

  predicate IsFile(f: File) { f.flags & FLG_FILE != 0 }

  function Set(c: seq<int>): set<int> { set b | b in c }

  ghost predicate Distinct(c: seq<int>) {
    forall i, j :: 0 <= i < j < |c| ==> c[i] != c[j]
  }

  ghost predicate InBlocks(d: Disk, c: seq<int>) {
    forall i :: 0 <= i < |c| ==> c[i] in d.blocks
  }

  /** c follows the continuation words from block to block; what its tail says is left open. */
  ghost predicate Linked(g: Geometry, d: Disk, c: seq<int>)
    requires g.Ok() && d.Shaped(g)
  {
    && c != [] && InBlocks(d, c) && Distinct(c)
    && forall i {:trigger d.Cont(g, c[i])} :: 0 <= i < |c| - 1 ==> d.Cont(g, c[i]) == c[i + 1]
  }

  ghost predicate Terminated(g: Geometry, d: Disk, c: seq<int>)
    requires g.Ok() && d.Shaped(g)
  {
    c != [] && c[|c| - 1] in d.blocks && d.Cont(g, c[|c| - 1]) == 0
  }

  /** rest goes on from chain c, through whatever blocks, until a 0. */
  ghost predicate Leads(g: Geometry, d: Disk, c: seq<int>, rest: seq<int>)
    requires g.Ok() && d.Shaped(g)
  {
    c != [] && c <= rest && Linked(g, d, rest) && Terminated(g, d, rest)
  }

  /** rest goes on from chain c through unused blocks until a 0. */
  ghost predicate Walks(g: Geometry, d: Disk, c: seq<int>, rest: seq<int>)
    requires g.Ok() && d.Shaped(g)
  {
    Leads(g, d, c, rest) && forall i :: |c| <= i < |rest| ==> rest[i] !in d.used
  }

  /** Whoever follows the links of chain c gets to a 0. */
  ghost predicate Reaches(g: Geometry, d: Disk, c: seq<int>)
    requires g.Ok() && d.Shaped(g)
  {
    exists rest: seq<int> :: Leads(g, d, c, rest)
  }

  /** Whoever follows the links of chain c until a 0 gets there, and passes no block of another file. */
  ghost predicate Ends(g: Geometry, d: Disk, c: seq<int>)
    requires g.Ok() && d.Shaped(g)
  {
    exists rest: seq<int> :: Walks(g, d, c, rest)
  }

  lemma TerminatedEnds(g: Geometry, d: Disk, c: seq<int>)
    requires g.Ok() && d.Shaped(g) && Linked(g, d, c) && Terminated(g, d, c)
    ensures Ends(g, d, c)
  {
    assert Walks(g, d, c, c);
  }

  lemma LeadShape(g: Geometry, d: Disk, c: seq<int>, rest: seq<int>)
    requires g.Ok() && d.Shaped(g) && Leads(g, d, c, rest)
    ensures c != [] && c <= rest && Linked(g, d, rest) && Terminated(g, d, rest)
  {
  }

  lemma WalkShape(g: Geometry, d: Disk, c: seq<int>, rest: seq<int>)
    requires g.Ok() && d.Shaped(g) && Walks(g, d, c, rest)
    ensures c != [] && c <= rest && Linked(g, d, rest) && Terminated(g, d, rest)
  {
  }

  lemma EndsReaches(g: Geometry, d: Disk, c: seq<int>)
    requires g.Ok() && d.Shaped(g) && Ends(g, d, c)
    ensures Reaches(g, d, c)
  {
    hide Leads;
    var rest :| Walks(g, d, c, rest);
  }

  /** There is one way to follow the links, so a chain ends well exactly if that way passes unused blocks. */
  lemma LeadsUnique(g: Geometry, d: Disk, c: seq<int>, rest: seq<int>)
    requires g.Ok() && d.Shaped(g) && Leads(g, d, c, rest)
    ensures Ends(g, d, c) <==> Walks(g, d, c, rest)
  {
    hide Terminated, Linked;
    if Ends(g, d, c) {
      var w :| Walks(g, d, c, w);
      LeadsNoLonger(g, d, rest, w);
      LeadsNoLonger(g, d, w, rest);
    }
  }

  lemma {:induction false} LeadsSame(g: Geometry, d: Disk, a: seq<int>, b: seq<int>, i: nat)
    requires g.Ok() && d.Shaped(g) && Linked(g, d, a) && Linked(g, d, b) && a[0] == b[0] && i < |a| && i < |b|
    ensures a[i] == b[i]
  {
    if i > 0 {
      LeadsSame(g, d, a, b, i - 1);
      assert d.Cont(g, a[i - 1]) == a[i] && d.Cont(g, b[i - 1]) == b[i];
    }
  }

  lemma LeadsNoLonger(g: Geometry, d: Disk, a: seq<int>, b: seq<int>)
    requires g.Ok() && d.Shaped(g) && a != [] && b != []
    requires Linked(g, d, a) && Terminated(g, d, a) && Linked(g, d, b) && a[0] == b[0]
    ensures b <= a
  {
    if |a| < |b| {
      LeadsSame(g, d, a, b, |a| - 1);
      MetaExact(g);
      assert d.Cont(g, b[|a| - 1]) == b[|a|];
    }
    forall i | 0 <= i < |a| && i < |b|
      ensures a[i] == b[i]
    {
      LeadsSame(g, d, a, b, i);
    }
  }

  /** Freeing what the walk passes behind the first n blocks is freeing what the chain has there. */
  lemma WalkUsed(g: Geometry, d: Disk, c: seq<int>, rest: seq<int>, n: nat)
    requires g.Ok() && d.Shaped(g) && Walks(g, d, c, rest) && n <= |c|
    ensures d.used - Set(rest[n..]) == d.used - Set(c[n..])
  {
    assert rest[n..] == c[n..] + rest[|c|..];
  }

  /** The payload of a chain, block after block. */
  ghost function Space(g: Geometry, d: Disk, c: seq<int>): (s: seq<byte>)
    requires g.Ok() && d.Shaped(g) && InBlocks(d, c)
    ensures |s| == g.Capacity(|c|)
  {
    if c == [] then [] else
      var n := |c| - 1;
      assert InBlocks(d, c[..n]);
      Space(g, d, c[..n]) + d.Payload(g, c[n], n)
  }

  /** c is the counted chain of the file whose first block is h. */
  ghost predicate FileOk(g: Geometry, d: Disk, h: int, c: seq<int>)
    requires g.Ok() && d.Shaped(g)
  {
    && Linked(g, d, c) && c[0] == h
    && |c| == g.BlocksRequired(d.Size(g, h))
    && d.Last(g, h) == c[|c| - 1]
  }

  ghost function FileAt(g: Geometry, d: Disk, h: int, c: seq<int>): File
    requires g.Ok() && d.Shaped(g) && FileOk(g, d, h, c)
  {
    BlocksRequiredExact(g, d.Size(g, h));
    File(d.Flags(g, h), Space(g, d, c)[..d.Size(g, h)])
  }

  function Meta(g: Geometry): set<int>
    requires g.Ok()
  {
    Below(g.MetaPages())
  }

  /** The blocks of the chains of all files that start below n: see OwnedHas and OwnedWho. */
  ghost function Owned(live: map<int, seq<int>>, n: nat): set<int> {
    if n == 0 then {} else Owned(live, n - 1) + Set(ChainOf(live, n - 1))
  }

  ghost function ChainOf(live: map<int, seq<int>>, h: int): seq<int> {
    if h in live then live[h] else []
  }

  lemma {:induction false} OwnedHas(live: map<int, seq<int>>, n: nat, h: int, x: int)
    requires 0 <= h < n && h in live && x in live[h]
    ensures x in Owned(live, n)
  {
    if h < n - 1 { OwnedHas(live, n - 1, h, x); }
  }

  lemma {:induction false} OwnedWho(live: map<int, seq<int>>, n: nat, x: int) returns (h: int)
    requires x in Owned(live, n)
    ensures 0 <= h < n && h in live && x in live[h]
  {
    h := n - 1;
    if x !in Set(ChainOf(live, h)) { h := OwnedWho(live, n - 1, x); }
  }

  /** No block is on the chains of two files. */
  ghost predicate Apart(live: map<int, seq<int>>) {
    forall h, k, x :: h in live && k in live && x in live[h] && x in live[k] ==> h == k
  }

  /** Every file has its chain, chains do not meet, and the used blocks are exactly the metadata
      pages and the blocks of the chains. */
  ghost predicate Wf(g: Geometry, d: Disk, live: map<int, seq<int>>)
    requires g.Ok()
  {
    && d.Shaped(g)
    && (forall h :: h in live ==> FileOk(g, d, h, live[h]))
    && Apart(live)
    && d.used == Meta(g) + Owned(live, g.blocksCount)
  }

  ghost function FilesOf(g: Geometry, d: Disk, live: map<int, seq<int>>): (files: Files)
    requires g.Ok() && Wf(g, d, live)
    ensures files.Keys == live.Keys
  {
    map h | h in live :: FileAt(g, d, h, live[h])
  }

  // ---- The counted chain is determined by the disk ----

  lemma {:induction false} LinkedUnique(g: Geometry, d: Disk, b: seq<int>, c: seq<int>, i: nat)
    requires g.Ok() && d.Shaped(g) && Linked(g, d, b) && Linked(g, d, c)
    requires b[0] == c[0] && i < |b| && i < |c|
    ensures b[i] == c[i]
  {
    if i > 0 {
      LinkedUnique(g, d, b, c, i - 1);
      assert d.Cont(g, b[i - 1]) == d.Cont(g, c[i - 1]);
    }
  }

  /** A disk leaves no choice about the chain of a file. */
  lemma ChainUnique(g: Geometry, d: Disk, h: int, b: seq<int>, c: seq<int>)
    requires g.Ok() && d.Shaped(g) && FileOk(g, d, h, b) && FileOk(g, d, h, c)
    ensures b == c
  {
    forall i | 0 <= i < |b|
      ensures b[i] == c[i]
    {
      LinkedUnique(g, d, b, c, i);
    }
  }

  // ---- Space ----

  lemma {:induction false} SpaceFrame(g: Geometry, d: Disk, e: Disk, c: seq<int>)
    requires g.Ok() && d.Shaped(g) && e.Shaped(g) && InBlocks(d, c)
    requires forall i :: 0 <= i < |c| ==> c[i] in e.blocks && e.Payload(g, c[i], i) == d.Payload(g, c[i], i)
    ensures Space(g, e, c) == Space(g, d, c)
  {
    if c != [] {
      var n := |c| - 1;
      forall i | 0 <= i < n
        ensures c[..n][i] in e.blocks && e.Payload(g, c[..n][i], i) == d.Payload(g, c[..n][i], i)
      {
        assert c[i] in e.blocks;
      }
      SpaceFrame(g, d, e, c[..n]);
    }
  }

  lemma {:induction false} SpacePrefix(g: Geometry, d: Disk, c: seq<int>, n: nat)
    requires g.Ok() && d.Shaped(g) && InBlocks(d, c) && n <= |c|
    ensures g.Capacity(n) <= g.Capacity(|c|)
    ensures Space(g, d, c[..n]) == Space(g, d, c)[..g.Capacity(n)]
  {
    hide Space, Geometry.Capacity, Disk.Payload;
    if n == |c| {
      assert c[..n] == c;
      assert Space(g, d, c)[..g.Capacity(n)] == Space(g, d, c);
    } else {
      var m := |c| - 1;
      SpacePrefix(g, d, c[..m], n);
      assert c[..m][..n] == c[..n];
      SpaceSnoc(g, d, c);
    }
  }

  lemma SpaceSnoc(g: Geometry, d: Disk, c: seq<int>)
    requires g.Ok() && d.Shaped(g) && InBlocks(d, c) && c != []
    ensures var m := |c| - 1;
      && Space(g, d, c) == Space(g, d, c[..m]) + d.Payload(g, c[m], m)
      && g.Capacity(m) + g.Room(m) == g.Capacity(|c|)
  {
  }

  lemma SpaceSliceBytes(w: seq<byte>, s: seq<byte>, p: seq<byte>, x: seq<byte>, cap: nat, hdr: nat, o: nat, n: nat)
    requires |s| == cap && o + n <= |p| && cap + |p| <= |w| && w[..cap + |p|] == s + p
    requires hdr <= |x| && p == x[hdr..]
    ensures w[cap + o..cap + o + n] == x[hdr + o..hdr + o + n]
  {
    SliceOfPrefix(w, s, p, o, n);
    SliceOfDrop(x, hdr, o, n);
  }

  lemma SpaceNext(g: Geometry, d: Disk, c: seq<int>, i: nat)
    requires g.Ok() && d.Shaped(g) && InBlocks(d, c) && i < |c|
    ensures g.Capacity(i) + g.Room(i) <= g.Capacity(|c|)
    ensures Space(g, d, c)[..g.Capacity(i) + g.Room(i)] == Space(g, d, c[..i]) + d.Payload(g, c[i], i)
  {
    hide Space, Geometry.Capacity, Disk.Payload;
    SpacePrefix(g, d, c, i + 1);
    var p := c[..i + 1];
    assert p[..i] == c[..i] && p[i] == c[i] && |p| - 1 == i;
    SpaceSnoc(g, d, p);
  }

  /** Reading inside the i-th block of a chain reads the chain's space. */
  lemma SpaceSlice(g: Geometry, d: Disk, c: seq<int>, i: nat, o: nat, n: nat)
    requires g.Ok() && d.Shaped(g) && InBlocks(d, c) && i < |c| && o + n <= g.Room(i)
    ensures g.Capacity(i) + o + n <= g.Capacity(|c|) && g.Hdr(i) + o + n <= |d.blocks[c[i]]|
    ensures Space(g, d, c)[g.Capacity(i) + o..g.Capacity(i) + o + n]
            == d.blocks[c[i]][g.Hdr(i) + o..g.Hdr(i) + o + n]
  {
    hide Space, Geometry.Capacity;
    SpaceNext(g, d, c, i);
    var s, p := Space(g, d, c[..i]), d.Payload(g, c[i], i);
    SpaceSliceBytes(Space(g, d, c), s, p, d.blocks[c[i]], g.Capacity(i), g.Hdr(i), o, n);
  }

  /** Writing inside the i-th block of a chain patches the chain's space. */
  lemma {:induction false} SpaceWrite(g: Geometry, d: Disk, c: seq<int>, i: nat, o: nat, data: seq<byte>)
    requires g.Ok() && d.Shaped(g) && InBlocks(d, c) && Distinct(c) && i < |c| && o + |data| <= g.Room(i)
    ensures g.Capacity(i) + o + |data| <= g.Capacity(|c|)
    ensures Space(g, d.Write(g, c[i], g.Hdr(i) + o, data), c) == Patch(Space(g, d, c), g.Capacity(i) + o, data)
  {
    hide Patch, Space, Geometry.Capacity;
    var e := d.Write(g, c[i], g.Hdr(i) + o, data);
    var m := |c| - 1;
    var s, p := Space(g, d, c[..m]), d.Payload(g, c[m], m);
    SpaceSnoc(g, d, c);
    SpaceSnoc(g, e, c);
    if i == m {
      StorePayload(g, d, c[i], i, o, data);
      forall j | 0 <= j < m
        ensures c[..m][j] in e.blocks && e.Payload(g, c[..m][j], j) == d.Payload(g, c[..m][j], j)
      {
        assert c[j] != c[m];
      }
      SpaceFrame(g, d, e, c[..m]);
      PatchRight(s, p, o, data);
    } else {
      SpaceWrite(g, d, c[..m], i, o, data);
      assert e.Payload(g, c[m], m) == p;
      PatchLeft(s, p, g.Capacity(i) + o, data);
    }
  }

  // ---- Frames ----

  ghost predicate SameOn(d: Disk, e: Disk, c: seq<int>) {
    forall i :: 0 <= i < |c| ==> c[i] in d.blocks && c[i] in e.blocks && e.blocks[c[i]] == d.blocks[c[i]]
  }

  /** A file is what its blocks say. */
  lemma FileFrame(g: Geometry, d: Disk, e: Disk, h: int, c: seq<int>)
    requires g.Ok() && d.Shaped(g) && e.Shaped(g) && FileOk(g, d, h, c) && SameOn(d, e, c)
    ensures FileOk(g, e, h, c)
    ensures FileAt(g, e, h, c) == FileAt(g, d, h, c)
    ensures Terminated(g, e, c) == Terminated(g, d, c)
  {
    assert c[0] in e.blocks && e.blocks[c[0]] == d.blocks[c[0]];
    assert e.blocks[c[|c| - 1]] == d.blocks[c[|c| - 1]];
    forall i | 0 <= i < |c| - 1
      ensures e.Cont(g, c[i]) == c[i + 1]
    {
      assert d.Cont(g, c[i]) == c[i + 1];
    }
    SpaceFrame(g, d, e, c);
  }

  lemma {:induction false} SetSize(c: seq<int>)
    requires Distinct(c)
    ensures |Set(c)| == |c|
  {
    if c != [] {
      var n := |c| - 1;
      SetSize(c[..n]);
      assert Set(c) == Set(c[..n]) + {c[n]};
      assert c[n] !in Set(c[..n]);
    }
  }

  /** A file is smaller than half the address space. */
  lemma SizeBound(g: Geometry, d: Disk, h: int, c: seq<int>)
    requires g.Ok() && d.Shaped(g) && FileOk(g, d, h, c)
    ensures d.Size(g, h) <= g.Capacity(|c|) < HALF
  {
    SetSize(c);
    assert forall b :: b in Set(c) ==> g.IsData(b);
    SubsetSize(Set(c), Below(g.blocksCount));
    CapacityBelowBase(g, |c|);
    BaseMonotone(g, |c|, g.blocksCount);
    BlocksRequiredExact(g, d.Size(g, h));
  }

  lemma UsedBound(g: Geometry, d: Disk, live: map<int, seq<int>>)
    requires g.Ok() && Wf(g, d, live)
    ensures d.used <= Below(g.blocksCount)
    ensures |d.used| <= g.blocksCount
  {
    MetaExact(g);
    forall b | b in d.used
      ensures 0 <= b < g.blocksCount
    {
      if b in Owned(live, g.blocksCount) {
        var h := OwnedWho(live, g.blocksCount, b);
        var i :| 0 <= i < |live[h]| && live[h][i] == b;
      }
    }
    SubsetSize(d.used, Below(g.blocksCount));
  }

  lemma WfShaped(g: Geometry, d: Disk, live: map<int, seq<int>>)
    requires g.Ok() && Wf(g, d, live)
    ensures d.Shaped(g)
    ensures d.used <= Below(g.blocksCount) && Meta(g) <= d.used && |d.used| <= g.blocksCount
  {
    UsedBound(g, d, live);
  }

  /** What a consistent disk says about one of its files. */
  lemma WfFile(g: Geometry, d: Disk, live: map<int, seq<int>>, h: int)
    requires g.Ok() && Wf(g, d, live) && h in live
    ensures d.Shaped(g) && FileOk(g, d, h, live[h]) && Linked(g, d, live[h]) && Distinct(live[h])
    ensures live[h] != [] && live[h][0] == h && h in d.blocks && g.IsData(h)
    ensures |live[h]| == g.BlocksRequired(d.Size(g, h)) && d.Last(g, h) == live[h][|live[h]| - 1]
    ensures live[h][|live[h]| - 1] in d.blocks
    ensures Set(live[h]) <= d.used
  {
    forall x | x in live[h]
      ensures x in Owned(live, g.blocksCount)
    {
      OwnedHas(live, g.blocksCount, h, x);
    }
  }

  lemma OwnedData(g: Geometry, d: Disk, live: map<int, seq<int>>, x: int)
    requires g.Ok() && Wf(g, d, live) && x in Owned(live, g.blocksCount)
    ensures g.IsData(x)
  {
    var h := OwnedWho(live, g.blocksCount, x);
    var i :| 0 <= i < |live[h]| && live[h][i] == x;
  }

  lemma OtherChain(g: Geometry, d: Disk, live: map<int, seq<int>>, h: int, s: set<int>, k: int, x: int)
    requires g.Ok() && Wf(g, d, live) && k in live && k != h
    requires x in s ==> x in ChainOf(live, h) || x !in d.used
    ensures x in live[k] ==> x !in s
  {
    if x in live[k] { OwnedHas(live, g.blocksCount, k, x); }
  }

  /** The other files keep their chains and contents. */
  lemma OtherFile(g: Geometry, d: Disk, live: map<int, seq<int>>, e: Disk, h: int, s: set<int>, k: int)
    requires g.Ok() && Wf(g, d, live) && k in live && k != h && e.Shaped(g)
    requires forall x :: x in s ==> x in ChainOf(live, h) || x !in d.used
    requires SameOutside(d, e, s)
    ensures FileOk(g, e, k, live[k])
    ensures FileAt(g, e, k, live[k]) == FileAt(g, d, k, live[k])
    ensures Terminated(g, e, live[k]) == Terminated(g, d, live[k])
  {
    forall i | 0 <= i < |live[k]|
      ensures live[k][i] in d.blocks && live[k][i] in e.blocks
      ensures e.blocks[live[k][i]] == d.blocks[live[k][i]]
    {
      OtherChain(g, d, live, h, s, k, live[k][i]);
    }
    FileFrame(g, d, e, k, live[k]);
  }

  lemma OtherFiles(g: Geometry, d: Disk, live: map<int, seq<int>>, e: Disk, h: int, s: set<int>)
    requires g.Ok() && Wf(g, d, live) && e.Shaped(g)
    requires forall x :: x in s ==> x in ChainOf(live, h) || x !in d.used
    requires SameOutside(d, e, s)
    ensures forall k :: k in live && k != h ==>
              FileOk(g, e, k, live[k]) && FileAt(g, e, k, live[k]) == FileAt(g, d, k, live[k])
  {
    hide Linked, Space, Owned, Apart;
    forall k | k in live && k != h
      ensures FileOk(g, e, k, live[k]) && FileAt(g, e, k, live[k]) == FileAt(g, d, k, live[k])
    {
      OtherFile(g, d, live, e, h, s, k);
    }
  }

  lemma {:induction false} OwnedElsewhere(live: map<int, seq<int>>, h: int, c: seq<int>, n: nat)
    requires n <= h || h < 0
    ensures Owned(live[h := c], n) == Owned(live, n) == Owned(live - {h}, n)
  {
    if n > 0 { OwnedElsewhere(live, h, c, n - 1); }
  }

  lemma {:induction false} ReplaceOwned(live: map<int, seq<int>>, h: int, c: seq<int>, n: nat)
    requires Apart(live) && 0 <= h < n
    ensures Owned(live[h := c], n) == Owned(live, n) - Set(ChainOf(live, h)) + Set(c)
    ensures Owned(live - {h}, n) == Owned(live, n) - Set(ChainOf(live, h))
  {
    if h == n - 1 {
      OwnedApart(live, h, n - 1);
      OwnedElsewhere(live, h, c, n - 1);
    } else {
      ReplaceOwned(live, h, c, n - 1);
      ChainsApart(live, h, n - 1);
    }
  }

  lemma ChainsApart(live: map<int, seq<int>>, h: int, k: int)
    requires Apart(live) && h != k
    ensures Set(ChainOf(live, h)) !! Set(ChainOf(live, k))
  {
    forall x | x in ChainOf(live, h)
      ensures x !in ChainOf(live, k)
    {
    }
  }

  lemma OwnedApart(live: map<int, seq<int>>, h: int, n: nat)
    requires Apart(live) && n <= h
    ensures Owned(live, n) !! Set(ChainOf(live, h))
  {
    forall x | x in Owned(live, n)
      ensures x !in ChainOf(live, h)
    {
      var k := OwnedWho(live, n, x);
    }
  }

  /** The step every operation takes: file h, on chain ChainOf(live, h), gets chain c on a disk
      that differs only in blocks of these two chains. */
  ghost predicate Replaces(g: Geometry, d: Disk, live: map<int, seq<int>>, e: Disk, h: int, c: seq<int>)
    requires g.Ok() && Wf(g, d, live)
  {
    var b := ChainOf(live, h);
    && e.Shaped(g) && FileOk(g, e, h, c)
    && (forall x :: x in c ==> x in b || x !in d.used)
    && SameOutside(d, e, Set(b) + Set(c))
    && e.used == d.used - Set(b) + Set(c)
  }

  lemma ReplaceUsed(g: Geometry, d: Disk, live: map<int, seq<int>>, e: Disk, h: int, c: seq<int>)
    requires g.Ok() && Wf(g, d, live) && Replaces(g, d, live, e, h, c)
    ensures e.used == Meta(g) + Owned(live[h := c], g.blocksCount)
  {
    hide Linked, FileOk, Owned, Apart, SameOutside, Meta;
    FileHead(g, e, h, c);
    ReplaceOwned(live, h, c, g.blocksCount);
    forall x | x in ChainOf(live, h)
      ensures x !in Meta(g)
    {
      OwnedHas(live, g.blocksCount, h, x);
      OwnedData(g, d, live, x);
      DataNotMeta(g, x);
    }
  }

  lemma FileHead(g: Geometry, d: Disk, h: int, c: seq<int>)
    requires g.Ok() && d.Shaped(g) && FileOk(g, d, h, c)
    ensures g.IsData(h)
  {
  }

  lemma {:induction false} NoneOwned(n: nat)
    ensures Owned(map[], n) == {}
  {
    if n > 0 { NoneOwned(n - 1); }
  }

  lemma DataNotMeta(g: Geometry, x: int)
    requires g.Ok() && g.IsData(x)
    ensures x !in Meta(g)
  {
  }

  lemma ReplaceApart(g: Geometry, d: Disk, live: map<int, seq<int>>, e: Disk, h: int, c: seq<int>)
    requires g.Ok() && Wf(g, d, live) && Replaces(g, d, live, e, h, c)
    ensures Apart(live[h := c])
  {
    forall k, x | k in live && k != h && x in live[k]
      ensures x !in c
    {
      OwnedHas(live, g.blocksCount, k, x);
    }
  }

  lemma ReplaceKeepsWf(g: Geometry, d: Disk, live: map<int, seq<int>>, e: Disk, h: int, c: seq<int>)
    requires g.Ok() && Wf(g, d, live) && Replaces(g, d, live, e, h, c)
    ensures Wf(g, e, live[h := c])
  {
    hide Linked, Space, Owned, Apart, FileOk;
    ReplaceUsed(g, d, live, e, h, c);
    ReplaceApart(g, d, live, e, h, c);
    OtherFiles(g, d, live, e, h, Set(ChainOf(live, h)) + Set(c));
  }

  /** Replacing one file keeps the disk consistent and every other file as it was. */
  lemma ReplaceWf(g: Geometry, d: Disk, live: map<int, seq<int>>, e: Disk, h: int, c: seq<int>)
    requires g.Ok() && Wf(g, d, live) && Replaces(g, d, live, e, h, c)
    ensures Wf(g, e, live[h := c])
    ensures FilesOf(g, e, live[h := c]) == FilesOf(g, d, live)[h := FileAt(g, e, h, c)]
  {
    hide Linked, Space, Owned, Apart, FileOk, FileAt;
    ReplaceKeepsWf(g, d, live, e, h, c);
    OtherFiles(g, d, live, e, h, Set(ChainOf(live, h)) + Set(c));
    var x, y := FilesOf(g, e, live[h := c]), FilesOf(g, d, live)[h := FileAt(g, e, h, c)];
    assert x.Keys == y.Keys;
    assert forall k :: k in x ==> x[k] == y[k];
  }

  lemma DropUsed(g: Geometry, d: Disk, live: map<int, seq<int>>, h: int)
    requires g.Ok() && Wf(g, d, live) && h in live
    ensures d.used - Set(live[h]) == Meta(g) + Owned(live - {h}, g.blocksCount)
  {
    ReplaceOwned(live, h, [], g.blocksCount);
    forall x | x in live[h]
      ensures x !in Meta(g)
    {
      OwnedHas(live, g.blocksCount, h, x);
      OwnedData(g, d, live, x);
    }
  }

  lemma DropKeepsWf(g: Geometry, d: Disk, live: map<int, seq<int>>, e: Disk, h: int)
    requires g.Ok() && Wf(g, d, live) && h in live
    requires e == d.(used := d.used - Set(live[h]))
    ensures Wf(g, e, live - {h})
  {
    hide Linked, Space, Owned, FileOk;
    DropUsed(g, d, live, h);
    OtherFiles(g, d, live, e, h, {});
  }

  /** Dropping file h frees its chain and keeps every other file. */
  lemma DropWf(g: Geometry, d: Disk, live: map<int, seq<int>>, e: Disk, h: int)
    requires g.Ok() && Wf(g, d, live) && h in live
    requires e == d.(used := d.used - Set(live[h]))
    ensures Wf(g, e, live - {h})
    ensures FilesOf(g, e, live - {h}) == FilesOf(g, d, live) - {h}
  {
    hide Linked, Space, Owned, Apart, FileOk, FileAt;
    DropKeepsWf(g, d, live, e, h);
    OtherFiles(g, d, live, e, h, {});
    var x, y := FilesOf(g, e, live - {h}), FilesOf(g, d, live) - {h};
    assert x.Keys == y.Keys;
    assert forall k :: k in x ==> x[k] == y[k];
  }
}
