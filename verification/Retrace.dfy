/** Emptying a file and filling it again on a disk where nothing was freed before: the file gets its own
    blocks back, one after the other, and the links of the others still lead to the end. */
module Retrace {
  import opened Bytes
  import opened Layout
  import opened Disk
  import opened Chains
  import opened Allocator
  import opened Resize
  import opened Truncate
  import opened FileIo

  /** Of chain c the file has the blocks of k again; all words of c are as they were, and the rest of c
      is what is free below block n. */
  ghost predicate Retraced(g: Geometry, e: Disk, c: seq<int>, k: seq<int>, n: nat)
    requires g.Ok() && e.Shaped(g)
  {
    && k != [] && k <= c && Linked(g, e, c) && Terminated(g, e, c)
    && Ascending(c) && Set(c) <= Below(n) && n <= g.blocksCount
    && e.used == Below(n) - Set(c[|k|..])
  }

  /** The allocator hands the blocks of s out again, in order. */
  lemma {:induction false} FreshRefill(used: set<int>, s: seq<int>, m: nat, n: nat, j: nat)
    requires Ascending(s) && used !! Set(s) && used + Set(s) == Below(m) && m <= n && j <= |s|
    ensures Fresh(used, n, j) == s[..j]
    decreases j
  {
    hide FirstFree, Below, Ascending, Set;
    if j > 0 {
      var t := s[1..];
      LeastOfRest(used, s, m);
      AscendingTail(s);
      FirstFreeLeast(used, 0, n, s[0]);
      FreshRefill(used + {s[0]}, t, m, n, j - 1);
      assert s[..j] == [s[0]] + t[..j - 1];
    }
  }

  lemma AscendingTail(s: seq<int>)
    requires Ascending(s) && s != []
    ensures Ascending(s[1..]) && Set(s) == {s[0]} + Set(s[1..]) && s[0] !in Set(s[1..])
  {
    assert s == [s[0]] + s[1..];
  }

  lemma LeastOfRest(used: set<int>, s: seq<int>, m: nat)
    requires Ascending(s) && s != [] && used + Set(s) == Below(m)
    ensures 0 <= s[0] < m && forall x :: 0 <= x < s[0] ==> x in used
  {
    assert s[0] in Set(s);
    forall x | 0 <= x < s[0]
      ensures x in used
    {
      assert x in Below(m);
      assert forall i :: 0 <= i < |s| ==> s[0] <= s[i];
    }
  }

  /** A change inside the first blocks that keeps their links and where they end keeps all links. */
  lemma LinksKept(g: Geometry, d: Disk, c: seq<int>, e: Disk, k: seq<int>)
    requires g.Ok() && d.Shaped(g) && e.Shaped(g) && Linked(g, d, c) && k <= c && Linked(g, e, k) && Aside(g, d, e, k)
    ensures Linked(g, e, c) && Terminated(g, e, c) == Terminated(g, d, c)
  {
    forall i | 0 <= i < |c|
      ensures c[i] in e.blocks && e.Cont(g, c[i]) == d.Cont(g, c[i])
    {
      if i < |k| - 1 {
        assert k[i] == c[i] && e.Cont(g, k[i]) == k[i + 1] && d.Cont(g, c[i]) == c[i + 1];
      } else if i >= |k| {
        assert forall j :: 0 <= j < |k| ==> k[j] == c[j] && c[j] != c[i];
      }
    }
    forall i | 0 <= i < |c| - 1
      ensures e.Cont(g, c[i]) == c[i + 1]
    {
      assert d.Cont(g, c[i]) == c[i + 1];
    }
  }

  lemma RetraceStart(g: Geometry, d: Disk, live: map<int, seq<int>>, e: Disk, h: int, newSize: nat)
    requires g.Ok() && Wf(g, d, live) && h in live && Pristine(g, d, live) && Resized(g, d, live, e, h, newSize)
    requires g.BlocksRequired(newSize) <= |live[h]|
    ensures e.Shaped(g) && Retraced(g, e, live[h], ResizedChain(g, d, live[h], newSize), |d.used|)
  {
    hide Wf, Linked, Terminated, Resized, SamePayload, Fresh, Aside, Ascending, Zeroed, Below;
    var c, k := live[h], ResizedChain(g, d, live[h], newSize);
    WfFile(g, d, live, h);
    WfShaped(g, d, live);
    ResizedLinks(g, d, live, e, h, newSize);
    LinkedBasics(g, e, k);
    PristineEnds(g, d, live, h);
    LinksKept(g, d, c, e, k);
    SplitUsed(d.used, c, |k|);
    SubsetSize(d.used, Below(g.blocksCount));
  }

  lemma PristineEnds(g: Geometry, d: Disk, live: map<int, seq<int>>, h: int)
    requires g.Ok() && Wf(g, d, live) && h in live && Pristine(g, d, live)
    ensures d.Shaped(g) && Terminated(g, d, live[h]) && Ends(g, d, live[h])
    ensures Ascending(live[h]) && d.used == Below(|d.used|)
  {
    hide Wf, Linked, Terminated, Ends;
    WfFile(g, d, live, h);
    TerminatedEnds(g, d, live[h]);
  }

  /** Growing again takes the next blocks of the old chain. */
  lemma RetraceStep(g: Geometry, e: Disk, mid: map<int, seq<int>>, f: Disk, h: int, c: seq<int>, n: nat, newSize: nat)
    requires g.Ok() && Wf(g, e, mid) && h in mid && e.Shaped(g) && Retraced(g, e, c, mid[h], n)
    requires |mid[h]| <= g.BlocksRequired(newSize) <= |c|
    requires Moved(g, e, mid, f, h, ResizedChain(g, e, mid[h], newSize))
    ensures f.Shaped(g) && Retraced(g, f, c, ResizedChain(g, e, mid[h], newSize), n)
  {
    hide Wf, Linked, Terminated, Fresh, Aside, Below, SameOutside;
    var b, k := mid[h], ResizedChain(g, e, mid[h], newSize);
    RefilledChain(g, e, b, c, n, newSize);
    MovedLinked(g, e, mid, f, h, k);
    LinksKept(g, e, c, f, k);
    LinkedBasics(g, e, c);
    RefilledUsed(Below(n), c, |b|, |k|);
  }

  lemma MovedLinked(g: Geometry, d: Disk, live: map<int, seq<int>>, e: Disk, h: int, k: seq<int>)
    requires g.Ok() && Wf(g, d, live) && h in live && Moved(g, d, live, e, h, k)
    ensures d.Shaped(g) && e.Shaped(g) && Linked(g, e, k) && Aside(g, d, e, k)
    ensures e.used == d.used - Set(live[h]) + Set(k)
  {
    hide Wf, Linked;
  }

  lemma RefilledChain(g: Geometry, e: Disk, b: seq<int>, c: seq<int>, n: nat, newSize: nat)
    requires g.Ok() && e.Shaped(g) && Retraced(g, e, c, b, n) && |b| <= g.BlocksRequired(newSize) <= |c|
    ensures ResizedChain(g, e, b, newSize) == c[..g.BlocksRequired(newSize)]
  {
    hide Linked, Terminated, Fresh, Below;
    var m, s := g.BlocksRequired(newSize), c[|b|..];
    assert c == b + s;
    assert forall x :: x in s ==> x in c;
    FreshRefill(e.used, s, n, g.blocksCount, m - |b|);
    assert c[..m] == b + s[..m - |b|];
    assert b[..|b|] == b;
    if m == |b| { assert Fresh(e.used, g.blocksCount, 0) == []; }
  }

  lemma RefilledUsed(all: set<int>, c: seq<int>, i: nat, j: nat)
    requires Distinct(c) && i <= j <= |c| && Set(c) <= all
    ensures all - Set(c[i..]) - Set(c[..i]) + Set(c[..j]) == all - Set(c[j..])
  {
    var lower, upper := Set(c[..j]), Set(c[j..]);
    assert c == c[..j] + c[j..] && c == c[..i] + c[i..];
    assert Set(c) == lower + upper == Set(c[..i]) + Set(c[i..]);
    forall x | x in c[..j]
      ensures x !in c[j..]
    {
      var a :| 0 <= a < j && c[a] == x;
      assert forall t :: j <= t < |c| ==> c[t] != c[a];
    }
  }

  /** The file ends for whoever walks on; it ends in 0 itself exactly if it has all its blocks again. */
  lemma RetraceEnds(g: Geometry, e: Disk, c: seq<int>, k: seq<int>, n: nat)
    requires g.Ok() && e.Shaped(g) && Retraced(g, e, c, k, n)
    ensures Ends(g, e, k) && (Terminated(g, e, k) <==> |k| == |c|)
  {
    hide Below;
    forall i | |k| <= i < |c|
      ensures c[i] !in e.used
    {
      assert c[|k|..][i - |k|] == c[i];
    }
    assert Walks(g, e, k, c);
    MetaExact(g);
    if |k| < |c| {
      assert k[|k| - 1] == c[|k| - 1] && e.Cont(g, c[|k| - 1]) == c[|k|];
      assert g.IsData(c[|k|]);
    }
  }
}
