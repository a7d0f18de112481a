/** How many blocks are used. */
module Census {
  import opened Layout
  import opened Disk
  import opened Chains
  import opened Truncate

  /** The lengths of the chains of all files that start below n, together. */
  ghost function Total(live: map<int, seq<int>>, n: nat): nat {
    if n == 0 then 0 else Total(live, n - 1) + |ChainOf(live, n - 1)|
  }

  lemma {:induction false} TotalUpdate(live: map<int, seq<int>>, h: int, c: seq<int>, n: nat)
    requires 0 <= h
    ensures Total(live[h := c], n) == if h < n then Total(live, n) - |ChainOf(live, h)| + |c| else Total(live, n)
  {
    if n > 0 { TotalUpdate(live, h, c, n - 1); }
  }

  lemma DistinctChain(live: map<int, seq<int>>, h: int)
    requires forall k :: k in live ==> Distinct(live[k])
    ensures Distinct(ChainOf(live, h))
  {
  }

  lemma {:induction false} OwnedCount(live: map<int, seq<int>>, n: nat)
    requires Apart(live) && forall h :: h in live ==> Distinct(live[h])
    ensures |Owned(live, n)| == Total(live, n)
  {
    hide Apart, Distinct, Set, ChainOf;
    if n > 0 {
      OwnedCount(live, n - 1);
      OwnedApart(live, n - 1, n - 1);
      DistinctChain(live, n - 1);
      SetSize(ChainOf(live, n - 1));
      ApartSize(Owned(live, n - 1), Set(ChainOf(live, n - 1)));
    }
  }

  lemma ApartSize(a: set<int>, b: set<int>)
    requires a !! b
    ensures |a + b| == |a| + |b|
  {
  }

  /** Used blocks: the metadata pages and, for each file, the blocks its size requires. */
  lemma UsedCount(g: Geometry, d: Disk, live: map<int, seq<int>>)
    requires g.Ok() && Wf(g, d, live)
    ensures |d.used| == g.MetaPages() + Total(live, g.blocksCount)
    ensures forall h :: h in live ==> h in d.blocks && |live[h]| == g.BlocksRequired(d.Size(g, h))
  {
    WfParts(g, d, live);
    OwnedCount(live, g.blocksCount);
    assert Meta(g) !! Owned(live, g.blocksCount);
  }

  lemma WfParts(g: Geometry, d: Disk, live: map<int, seq<int>>)
    requires g.Ok() && Wf(g, d, live)
    ensures d.Shaped(g) && Apart(live)
    ensures d.used == Meta(g) + Owned(live, g.blocksCount) && Meta(g) !! Owned(live, g.blocksCount)
    ensures forall h :: h in live ==>
              Distinct(live[h]) && h in d.blocks && |live[h]| == g.BlocksRequired(d.Size(g, h))
  {
    forall x | x in Owned(live, g.blocksCount)
      ensures g.IsData(x)
    {
      OwnedData(g, d, live, x);
    }
  }

  /** The blocks that the files starting below n need, by their sizes. */
  function Needed(g: Geometry, files: Files, n: nat): nat
    requires g.Ok()
  {
    if n == 0 then 0
    else Needed(g, files, n - 1) + if n - 1 in files then g.BlocksRequired(|files[n - 1].content|) else 0
  }

  lemma {:induction false} TotalNeeded(g: Geometry, files: Files, live: map<int, seq<int>>, n: nat)
    requires g.Ok() && files.Keys == live.Keys
    requires forall h :: h in files ==> |live[h]| == g.BlocksRequired(|files[h].content|)
    ensures Total(live, n) == Needed(g, files, n)
  {
    if n > 0 { TotalNeeded(g, files, live, n - 1); }
  }

  /** The sizes of the files alone say how many blocks are used. */
  function UsedBy(g: Geometry, files: Files): nat
    requires g.Ok()
  {
    g.MetaPages() + Needed(g, files, g.blocksCount)
  }

  lemma UsedBySizes(g: Geometry, d: Disk, live: map<int, seq<int>>)
    requires g.Ok() && Wf(g, d, live)
    ensures |d.used| == UsedBy(g, FilesOf(g, d, live))
    ensures forall h :: h in live ==> |live[h]| == g.BlocksRequired(|FilesOf(g, d, live)[h].content|)
  {
    hide Wf, FilesOf, Total;
    UsedCount(g, d, live);
    forall h | h in live
      ensures |live[h]| == g.BlocksRequired(|FilesOf(g, d, live)[h].content|)
    {
      FileSpace(g, d, live, h);
    }
    TotalNeeded(g, FilesOf(g, d, live), live, g.blocksCount);
  }
}
