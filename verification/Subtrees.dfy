/** Subtrees of the namespace: finding them, and taking one out. */
module Subtrees {
  import opened Bytes
  import opened Chains
  import opened Results
  import opened Namespace
  import opened Directories
  import opened Purge

  /** s occurs in t. */
  ghost predicate Within(s: Tree, t: Tree)
    decreases t, 1
  {
    s == t || WithinAny(s, t.kids)
  }

  ghost predicate WithinAny(s: Tree, kids: seq<Tree>)
    decreases kids, 0
  {
    kids != [] && (Within(s, kids[0]) || WithinAny(s, kids[1..]))
  }

  /** Every subtree of a tree is a tree. */
  lemma {:induction false} WithinTree(files: Files, s: Tree, t: Tree)
    requires IsTree(files, t) && Within(s, t)
    ensures IsTree(files, s) && Inodes(s) <= Inodes(t)
    decreases t, 1
  {
    hide Items, IsDirectory, DirectoryItems;
    if s != t && IsDirectory(files[t.inode]) {
      WithinTrees(files, s, DirectoryItems(files[t.inode]).value, t.kids);
    }
  }

  lemma {:induction false} WithinTrees(files: Files, s: Tree, items: seq<Item>, kids: seq<Tree>)
    requires AreTrees(files, items, kids) && WithinAny(s, kids)
    ensures IsTree(files, s) && Inodes(s) <= InodesOf(kids)
    decreases kids, 0
  {
    hide Items, IsDirectory, DirectoryItems, IsTree, Inodes;
    if Within(s, kids[0]) { WithinTree(files, s, kids[0]); } else { WithinTrees(files, s, items[1..], kids[1..]); }
  }

  /** The subtree at inode h. */
  ghost function SubAt(t: Tree, h: int): (s: Tree)
    requires h in Inodes(t)
    ensures s.inode == h && Within(s, t)
    decreases t, 1
  {
    if t.inode == h then t else SubIn(t.kids, h)
  }

  ghost function SubIn(kids: seq<Tree>, h: int): (s: Tree)
    requires h in InodesOf(kids)
    ensures s.inode == h && WithinAny(s, kids)
    decreases kids, 0
  {
    if h in Inodes(kids[0]) then SubAt(kids[0], h) else SubIn(kids[1..], h)
  }

  /** A subtree with all inodes of the whole is the whole. */
  lemma WholeTree(files: Files, t: Tree, h: int)
    requires IsTree(files, t) && h in Inodes(t)
    ensures t.inode in Inodes(SubAt(t, h)) <==> h == t.inode
  {
    hide Items, IsDirectory, DirectoryItems;
    if h != t.inode {
      TreeTop(files, t);
      if IsDirectory(files[t.inode]) {
        WithinTrees(files, SubIn(t.kids, h), DirectoryItems(files[t.inode]).value, t.kids);
      }
    }
  }

  /** A change to a file outside a tree leaves the tree. */
  lemma {:induction false} TreeElsewhere(files: Files, t: Tree, h: int, f: File)
    requires IsTree(files, t) && h !in Inodes(t)
    ensures IsTree(files[h := f], t)
    decreases t, 1
  {
    hide Items, IsDirectory, DirectoryItems;
    if IsDirectory(files[t.inode]) { TreesElsewhere(files, DirectoryItems(files[t.inode]).value, t.kids, h, f); }
  }

  lemma {:induction false} TreesElsewhere(files: Files, items: seq<Item>, kids: seq<Tree>, h: int, f: File)
    requires AreTrees(files, items, kids) && h !in InodesOf(kids)
    ensures AreTrees(files[h := f], items, kids)
    decreases kids, 0
  {
    hide Items, IsDirectory, DirectoryItems, IsTree, Inodes;
    if kids != [] {
      TreeElsewhere(files, kids[0], h, f);
      TreesElsewhere(files, items[1..], kids[1..], h, f);
    }
  }

  // ---- Taking the k-th item of a directory out of the tree ----

  ghost function Without(kids: seq<Tree>, k: nat): seq<Tree>
    requires k < |kids|
  {
    kids[..k] + kids[k + 1..]
  }

  ghost function Prune(t: Tree, dir: int, k: nat): Tree
    decreases t, 1
  {
    if t.inode == dir then Tree(dir, if k < |t.kids| then Without(t.kids, k) else t.kids)
    else Tree(t.inode, PruneAll(t.kids, dir, k))
  }

  ghost function PruneAll(kids: seq<Tree>, dir: int, k: nat): (r: seq<Tree>)
    ensures |r| == |kids|
    decreases kids, 0
  {
    if kids == [] then [] else [Prune(kids[0], dir, k)] + PruneAll(kids[1..], dir, k)
  }

  lemma {:induction false} InodesWithout(files: Files, items: seq<Item>, kids: seq<Tree>, k: nat)
    requires AreTrees(files, items, kids) && k < |kids|
    ensures InodesOf(Without(kids, k)) == InodesOf(kids) - Inodes(kids[k]) && Inodes(kids[k]) <= InodesOf(kids)
    ensures AreTrees(files, RemoveAt(items, k), Without(kids, k))
    ensures IsTree(files, kids[k]) && items[k].inode == kids[k].inode
    decreases |kids|
  {
    hide Inodes, IsTree, Without, RemoveAt;
    if k == 0 {
      WithoutFirst(items, kids);
    } else {
      InodesWithout(files, items[1..], kids[1..], k - 1);
      WithoutNext(items, kids, k);
      ApartMinus(Inodes(kids[0]), InodesOf(kids[1..]), Inodes(kids[k]));
    }
  }

  lemma WithoutFirst(items: seq<Item>, kids: seq<Tree>)
    requires items != [] && kids != []
    ensures Without(kids, 0) == kids[1..] && RemoveAt(items, 0) == items[1..]
  {
  }

  lemma WithoutNext(items: seq<Item>, kids: seq<Tree>, k: nat)
    requires 0 < k < |kids| == |items|
    ensures kids[1..][k - 1] == kids[k] && items[1..][k - 1] == items[k]
    ensures var w := Without(kids, k);
      w != [] && w[0] == kids[0] && w[1..] == Without(kids[1..], k - 1)
    ensures var r := RemoveAt(items, k);
      r != [] && r[0] == items[0] && r[1..] == RemoveAt(items[1..], k - 1)
  {
    assert Without(kids, k) == [kids[0]] + Without(kids[1..], k - 1);
    assert RemoveAt(items, k) == [items[0]] + RemoveAt(items[1..], k - 1);
  }

  lemma ApartMinus(a: set<int>, b: set<int>, c: set<int>)
    requires a !! b && c <= b
    ensures a + (b - c) == a + b - c && a !! (b - c) && c <= a + b
  {
  }

  /** What the directory dir loses with its k-th item. */
  ghost function Lost(t: Tree, dir: int, k: nat): Tree
    requires dir in Inodes(t) && k < |SubAt(t, dir).kids|
  {
    SubAt(t, dir).kids[k]
  }

  /** files' is files with the k-th item of dir removed. */
  ghost predicate Removed(files: Files, dir: int, k: nat, files': Files) {
    && dir in files && DirectoryItems(files[dir]).Ok? && k < |DirectoryItems(files[dir]).value|
    && dir in files' && files' == files[dir := files'[dir]] && files'[dir].flags == files[dir].flags
    && DirectoryItems(files'[dir]) == Ok(RemoveAt(DirectoryItems(files[dir]).value, k))
  }

  lemma RemovedShape(files: Files, dir: int, k: nat, files': Files)
    requires Removed(files, dir, k, files')
    ensures dir in files && dir in files' && files' == files[dir := files'[dir]]
    ensures IsDirectory(files[dir]) && IsDirectory(files'[dir]) && DirectoryItems(files[dir]).Ok?
    ensures k < |DirectoryItems(files[dir]).value|
    ensures DirectoryItems(files'[dir]) == Ok(RemoveAt(DirectoryItems(files[dir]).value, k))
  {
    hide Items;
  }

  /** Removing an item takes its subtree, whole, out of the tree. */
  lemma {:induction false} PruneTree(files: Files, t: Tree, dir: int, k: nat, files': Files)
    requires IsTree(files, t) && dir in Inodes(t) && Removed(files, dir, k, files')
    ensures k < |SubAt(t, dir).kids| && dir !in Inodes(Lost(t, dir, k))
    ensures IsTree(files', Prune(t, dir, k)) && IsTree(files', Lost(t, dir, k))
    ensures Inodes(Prune(t, dir, k)) == Inodes(t) - Inodes(Lost(t, dir, k))
    ensures Inodes(Lost(t, dir, k)) <= Inodes(t) && Lost(t, dir, k).inode == DirectoryItems(files[dir]).value[k].inode
    decreases t, 1
  {
    hide Items, DirectoryItems, IsDirectory, Removed, RemoveAt;
    RemovedShape(files, dir, k, files');
    TreeTop(files, t);
    if t.inode == dir {
      var items := DirectoryItems(files[dir]).value;
      InodesWithout(files, items, t.kids, k);
      TreesElsewhere(files, RemoveAt(items, k), Without(t.kids, k), dir, files'[dir]);
      TreeElsewhere(files, t.kids[k], dir, files'[dir]);
    } else {
      PruneTrees(files, DirectoryItems(files[t.inode]).value, t.kids, dir, k, files');
    }
  }

  lemma {:induction false} PruneTrees(files: Files, items: seq<Item>, kids: seq<Tree>, dir: int, k: nat, files': Files)
    requires AreTrees(files, items, kids) && dir in InodesOf(kids) && Removed(files, dir, k, files')
    ensures k < |SubIn(kids, dir).kids| && dir !in Inodes(SubIn(kids, dir).kids[k])
    ensures var lost := SubIn(kids, dir).kids[k];
      && IsTree(files', lost) && lost.inode == DirectoryItems(files[dir]).value[k].inode
      && AreTrees(files', items, PruneAll(kids, dir, k))
      && InodesOf(PruneAll(kids, dir, k)) == InodesOf(kids) - Inodes(lost) && Inodes(lost) <= InodesOf(kids)
    decreases kids, 0
  {
    hide Items, DirectoryItems, IsDirectory, Removed, RemoveAt, IsTree, Inodes, Prune;
    RemovedShape(files, dir, k, files');
    var head, rest := kids[0], kids[1..];
    var all := PruneAll(kids, dir, k);
    assert all[0] == Prune(head, dir, k) && all[1..] == PruneAll(rest, dir, k);
    if dir in Inodes(head) {
      PruneTree(files, head, dir, k, files');
      TreesElsewhere(files, items[1..], rest, dir, files'[dir]);
      PruneNothing(rest, dir, k);
      PruneTop(head, dir, k);
    } else {
      PruneTrees(files, items[1..], rest, dir, k, files');
      TreeElsewhere(files, head, dir, files'[dir]);
      PruneNot(head, dir, k);
    }
  }

  lemma PruneTop(t: Tree, dir: int, k: nat)
    ensures Prune(t, dir, k).inode == t.inode
  {
  }

  lemma {:induction false} PruneNot(t: Tree, dir: int, k: nat)
    requires dir !in Inodes(t)
    ensures Prune(t, dir, k) == t
    decreases t, 1
  {
    PruneNothing(t.kids, dir, k);
  }

  lemma {:induction false} PruneNothing(kids: seq<Tree>, dir: int, k: nat)
    requires dir !in InodesOf(kids)
    ensures PruneAll(kids, dir, k) == kids
    decreases kids, 0
  {
    hide Prune, Inodes;
    if kids != [] {
      PruneNot(kids[0], dir, k);
      PruneNothing(kids[1..], dir, k);
    }
  }

  /** Every path leads into the tree. */
  lemma {:induction false} WalkInTree(files: Files, t: Tree, parts: seq<seq<byte>>)
    requires IsTree(files, t)
    ensures Walk(files, t.inode, parts).Ok? ==> Walk(files, t.inode, parts).value in Inodes(t)
    decreases |parts|
  {
    hide Items, FindItem, DirectoryItems, IsDirectory, Inodes;
    TreeTop(files, t);
    if parts != [] && DirectoryItems(files[t.inode]).Ok? {
      DirectoryOnly(files[t.inode]);
      var items := DirectoryItems(files[t.inode]).value;
      var k := FindItem(items, parts[0]);
      if k < |items| {
        TreesSize(files, items, t.kids);
        InodesWithout(files, items, t.kids, k);
        WalkInTree(files, t.kids[k], parts[1..]);
      }
    }
  }

  /** The way to a file does not lead through it, and so survives whatever happens to it. */
  lemma {:induction false} WalkToHere(files: Files, t: Tree, h: int, f: File, parts: seq<seq<byte>>)
    requires IsTree(files, t) && Walk(files, t.inode, parts) == Ok(h)
    ensures Walk(files[h := f], t.inode, parts) == Ok(h)
    decreases |parts|
  {
    hide Items, FindItem, DirectoryItems, IsDirectory, Inodes;
    TreeTop(files, t);
    if parts != [] {
      DirectoryOnly(files[t.inode]);
      var items := DirectoryItems(files[t.inode]).value;
      var k := FindItem(items, parts[0]);
      TreesSize(files, items, t.kids);
      InodesWithout(files, items, t.kids, k);
      WalkInTree(files, t.kids[k], parts[1..]);
      WalkToHere(files, t.kids[k], h, f, parts[1..]);
    }
  }

  lemma TreesSize(files: Files, items: seq<Item>, kids: seq<Tree>)
    requires AreTrees(files, items, kids)
    ensures |items| == |kids|
  {
  }

  lemma DirectoryOnly(f: File)
    requires DirectoryItems(f).Ok?
    ensures IsDirectory(f)
  {
  }
}
