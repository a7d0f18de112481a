/** Directories as lists of items and paths as walks through them. */
module Namespace {
  import opened Bytes
  import opened Layout
  import opened Chains
  import opened Results

  const NAME_SIZE := 256   // FILE_NAME_LENGTH

  /** A DirectoryItem: an inode and the raw name field. */
  datatype Item = Item(inode: nat, name: seq<byte>) {
    ghost predicate Ok() { inode < LIMIT && |name| == NAME_SIZE }
  }

  function ItemBytes(it: Item): (s: seq<byte>)
    requires |it.name| == NAME_SIZE
    ensures |s| == ITEM_SIZE
  {
    EncodeWord(it.inode) + it.name
  }

  function ParseItem(s: seq<byte>): (it: Item)
    requires |s| == ITEM_SIZE
    ensures |it.name| == NAME_SIZE
  {
    Item(Decode(s[..WORD]), s[WORD..])
  }

  lemma ItemRoundTrip(it: Item)
    requires it.Ok()
    ensures ParseItem(ItemBytes(it)) == it
  {
    hide Encode, Decode;
    WordRoundTrip(it.inode);
    assert ItemBytes(it)[..WORD] == EncodeWord(it.inode);
  }

  lemma ItemBytesRoundTrip(s: seq<byte>)
    requires |s| == ITEM_SIZE
    ensures ParseItem(s).Ok() && ItemBytes(ParseItem(s)) == s
  {
    hide Encode, Decode;
    WordBound(s[..WORD]);
  }

  /** The items a directory's bytes hold. */
  function Items(content: seq<byte>): (items: seq<Item>)
    ensures |items| == |content| / ITEM_SIZE
  {
    if |content| < ITEM_SIZE then [] else [ParseItem(content[..ITEM_SIZE])] + Items(content[ITEM_SIZE..])
  }

  function AllBytes(items: seq<Item>): (s: seq<byte>)
    requires AllOk(items)
    ensures |s| == |items| * ITEM_SIZE
  {
    if items == [] then [] else ItemBytes(items[0]) + AllBytes(items[1..])
  }

  ghost predicate AllOk(items: seq<Item>) { forall i :: 0 <= i < |items| ==> items[i].Ok() }

  lemma {:induction false} ItemsOfBytes(items: seq<Item>)
    requires AllOk(items)
    ensures Items(AllBytes(items)) == items
  {
    hide ItemBytes, ParseItem;
    if items != [] {
      ItemRoundTrip(items[0]);
      ItemsOfBytes(items[1..]);
      var s := AllBytes(items);
      assert s[..ITEM_SIZE] == ItemBytes(items[0]);
      assert s[ITEM_SIZE..] == AllBytes(items[1..]);
    }
  }

  lemma {:induction false} BytesOfItems(content: seq<byte>)
    requires |content| % ITEM_SIZE == 0
    ensures AllOk(Items(content))
    ensures AllBytes(Items(content)) == content
  {
    hide ItemBytes, ParseItem;
    if |content| >= ITEM_SIZE {
      ItemBytesRoundTrip(content[..ITEM_SIZE]);
      BytesOfItems(content[ITEM_SIZE..]);
      assert Items(content)[1..] == Items(content[ITEM_SIZE..]);
    }
  }

  lemma {:induction false} AllBytesSnoc(items: seq<Item>, it: Item)
    requires AllOk(items) && it.Ok()
    ensures AllOk(items + [it])
    ensures AllBytes(items + [it]) == AllBytes(items) + ItemBytes(it)
  {
    hide ItemBytes;
    if items == [] {
      assert [it][1..] == [];
      assert AllBytes([it]) == ItemBytes(it) + AllBytes([]);
    } else {
      AllBytesSnoc(items[1..], it);
      assert (items + [it])[1..] == items[1..] + [it];
    }
  }

  /** Appending an item's bytes appends the item. */
  lemma ItemsSnoc(content: seq<byte>, it: Item)
    requires |content| % ITEM_SIZE == 0 && it.Ok()
    ensures Items(content + ItemBytes(it)) == Items(content) + [it]
  {
    hide ItemBytes, Items, AllBytes;
    var items := Items(content);
    BytesOfItems(content);
    AllBytesSnoc(items, it);
    ItemsOfBytes(items + [it]);
  }

  // ---- Names ----

  /** The C string a field holds: its bytes before the first NUL. */
  function CString(s: seq<byte>): seq<byte> {
    if s == [] || s[0] == 0 then [] else [s[0]] + CString(s[1..])
  }

  lemma {:induction false} CStringEnds(s: seq<byte>)
    ensures 0 !in CString(s) && |CString(s)| <= |s|
  {
    if s != [] && s[0] != 0 { CStringEnds(s[1..]); }
  }

  lemma {:induction false} CStringSplit(t: seq<byte>, s: seq<byte>)
    requires CString(t) == s && |s| < |t|
    ensures t[..|s|] == s && t[|s|] == 0
  {
    if s != [] {
      CStringSplit(t[1..], s[1..]);
      assert t[..|s|] == [t[0]] + t[1..][..|s| - 1];
    }
  }

  lemma {:induction false} CStringShort(t: seq<byte>, n: nat)
    requires n < |t| && t[n] == 0
    ensures |CString(t)| <= n
  {
    if n > 0 && t[0] != 0 { CStringShort(t[1..], n - 1); }
  }

  /** What a C string in a field is: what stands before the first NUL. */
  lemma CStringIs(s: seq<byte>)
    requires 0 in s
    ensures |CString(s)| < |s| && s[..|CString(s)|] == CString(s) && s[|CString(s)|] == 0 && 0 !in CString(s)
  {
    var n :| 0 <= n < |s| && s[n] == 0;
    CStringEnds(s);
    CStringShort(s, n);
    CStringSplit(s, CString(s));
  }

  predicate HasNul(s: seq<byte>) { 0 in s }

  /** The name field make_item fills: the characters of the name, then zeroes. */
  function PaddedName(name: seq<byte>): (s: seq<byte>)
    requires |name| < NAME_SIZE
    ensures |s| == NAME_SIZE && s[..|name|] == name && forall i :: |name| <= i < NAME_SIZE ==> s[i] == 0
  {
    name + seq(NAME_SIZE - |name|, _ => 0)
  }

  lemma {:induction false} CStringPrefix(name: seq<byte>, rest: seq<byte>)
    requires 0 !in name && (rest == [] || rest[0] == 0)
    ensures CString(name + rest) == name
  {
    if name == [] {
      assert name + rest == rest;
    } else {
      assert name[0] in name;
      assert (name + rest)[1..] == name[1..] + rest;
      assert forall x :: x in name[1..] ==> x in name;
      CStringPrefix(name[1..], rest);
    }
  }

  lemma PaddedNameBack(name: seq<byte>)
    requires |name| < NAME_SIZE && 0 !in name
    ensures CString(PaddedName(name)) == name && HasNul(PaddedName(name))
  {
    var s := PaddedName(name);
    assert s == name + s[|name|..];
    assert s[|name|] == 0;
    CStringPrefix(name, s[|name|..]);
  }

  /** Index of the first item called name, or the number of items when there is none. */
  function FindItem(items: seq<Item>, name: seq<byte>): (k: nat)
    ensures k <= |items|
  {
    if items == [] || CString(items[0].name) == name then 0 else 1 + FindItem(items[1..], name)
  }

  /** The item found has the name, and no item before it has. */
  lemma {:induction false} FindItemFirst(items: seq<Item>, name: seq<byte>)
    ensures var k := FindItem(items, name);
      && (k < |items| ==> CString(items[k].name) == name)
      && forall i :: 0 <= i < k ==> CString(items[i].name) != name
  {
    hide CString;
    if items != [] && CString(items[0].name) != name {
      FindItemFirst(items[1..], name);
    }
  }

  /** Items added at the end do not change what is found, only what was missing. */
  lemma FindSnoc(items: seq<Item>, it: Item, name: seq<byte>)
    ensures FindItem(items + [it], name) ==
            if FindItem(items, name) < |items| then FindItem(items, name)
            else if CString(it.name) == name then |items| else |items| + 1
  {
    hide CString;
    FindItemFirst(items, name);
    FindItemFirst(items + [it], name);
    var k, n := FindItem(items, name), FindItem(items + [it], name);
    var all := items + [it];
    assert forall i :: 0 <= i < |items| ==> all[i] == items[i];
    assert all[|items|] == it;
    if k < |items| {
      assert forall i :: 0 <= i < k ==> CString(all[i].name) != name;
    }
  }

  // ---- Directories and paths ----

  /** read_directory on a file. */
  function DirectoryItems(f: File): Result<seq<Item>> {
    if !IsDirectory(f) then Fatal(NotDirectory)
    else if |f.content| % ITEM_SIZE != 0 then Fatal(Internal)
    else Ok(Items(f.content))
  }

  /** Every item of every readable directory names an existing file, in a proper C string. */
  ghost predicate Closed(files: Files) {
    forall h, i :: h in files && DirectoryItems(files[h]).Ok? && 0 <= i < |DirectoryItems(files[h]).value| ==>
      var it := DirectoryItems(files[h]).value[i]; it.inode in files && HasNul(it.name)
  }

  /** locate_path: from inode h, one directory per component, the first match wins. */
  function Walk(files: Files, h: int, parts: seq<seq<byte>>): Result<int>
    decreases |parts|
  {
    if parts == [] then Ok(h)
    else if h !in files then Fatal(Internal)
    else match DirectoryItems(files[h])
      case Fatal(e) => Fatal(e)
      case Ok(items) =>
        var k := FindItem(items, parts[0]);
        if k == |items| then Fatal(NotFound) else Walk(files, items[k].inode, parts[1..])
  }

  /** One component: the first item of that name leads on, and without one there is nothing. */
  lemma WalkOne(files: Files, h: int, name: seq<byte>, k: nat)
    requires h in files && DirectoryItems(files[h]).Ok? && k < |DirectoryItems(files[h]).value|
    ensures Walk(files, h, []) == Ok(h)
    ensures var items := DirectoryItems(files[h]).value;
      && (CString(items[k].name) == name && (forall i :: 0 <= i < k ==> CString(items[i].name) != name) ==>
            Walk(files, h, [name]) == Ok(items[k].inode))
      && (Walk(files, h, [name]) == Fatal(NotFound) <==>
          forall i :: 0 <= i < |items| ==> CString(items[i].name) != name)
  {
    hide Items, CString;
    FindItemFirst(DirectoryItems(files[h]).value, name);
    assert [name][1..] == [];
  }

  lemma {:induction false} WalkSplit(files: Files, h: int, parts: seq<seq<byte>>, more: seq<seq<byte>>)
    ensures Walk(files, h, parts + more) ==
            (match Walk(files, h, parts) case Ok(i) => Walk(files, i, more) case Fatal(e) => Fatal(e))
    decreases |parts|
  {
    hide Items, FindItem, CString;
    if parts == [] {
      assert parts + more == more;
    } else {
      assert (parts + more)[1..] == parts[1..] + more;
      if h in files && DirectoryItems(files[h]).Ok? {
        var items := DirectoryItems(files[h]).value;
        var k := FindItem(items, parts[0]);
        if k < |items| { WalkSplit(files, items[k].inode, parts[1..], more); }
      }
    }
  }

  // ---- Creating an item ----

  /** The files after a new file was created and an item for it appended to directory dir. */
  function Created(files: Files, dir: int, inode: nat, flags: byte, name: seq<byte>): Files
    requires dir in files && |name| < NAME_SIZE
  {
    var f := files[dir];
    files[inode := File(flags, [])][dir := f.(content := f.content + ItemBytes(Item(inode, PaddedName(name))))]
  }

  ghost predicate CanCreate(files: Files, dir: int, inode: nat, name: seq<byte>) {
    CanPlace(files, dir, inode, name) && DirectoryItems(files[dir]).Ok?
  }

  ghost predicate CanPlace(files: Files, dir: int, inode: nat, name: seq<byte>) {
    dir in files && IsDirectory(files[dir]) && inode !in files && inode < LIMIT && |name| < NAME_SIZE && 0 !in name
  }

  lemma CreatedItems(files: Files, dir: int, inode: nat, flags: byte, name: seq<byte>)
    requires CanCreate(files, dir, inode, name)
    ensures DirectoryItems(Created(files, dir, inode, flags, name)[dir]) ==
            Ok(DirectoryItems(files[dir]).value + [Item(inode, PaddedName(name))])
  {
    hide Items, ItemBytes, PaddedName;
    ItemsSnoc(files[dir].content, Item(inode, PaddedName(name)));
  }

  /** Every path that resolved before the creation resolves to the same inode after it. */
  lemma {:induction false} CreateKeepsPaths(files: Files, dir: int, inode: nat, flags: byte, name: seq<byte>,
                                            h: int, parts: seq<seq<byte>>)
    requires CanPlace(files, dir, inode, name) && Closed(files) && h in files
    requires Walk(files, h, parts).Ok?
    ensures Walk(Created(files, dir, inode, flags, name), h, parts) == Walk(files, h, parts)
    decreases |parts|
  {
    hide Items, FindItem, CString, ItemBytes, PaddedName, IsDirectory;
    if parts != [] {
      var files' := Created(files, dir, inode, flags, name);
      var items := DirectoryItems(files[h]).value;
      var k := FindItem(items, parts[0]);
      assert items[k].inode in files;
      if h == dir {
        CreatedItems(files, dir, inode, flags, name);
        FindSnoc(items, Item(inode, PaddedName(name)), parts[0]);
      }
      CreateKeepsPaths(files, dir, inode, flags, name, items[k].inode, parts[1..]);
    }
  }

  /** After a creation under parent path parts, the new path resolves to the new inode if and only
      if the parent had no item of that name: the first match wins over duplicates. */
  lemma CreateThenLocate(files: Files, dir: int, inode: nat, flags: byte, name: seq<byte>,
                         root: int, parts: seq<seq<byte>>)
    requires CanCreate(files, dir, inode, name) && Closed(files) && root in files
    requires Walk(files, root, parts) == Ok(dir)
    ensures var items := DirectoryItems(files[dir]).value;
      Walk(Created(files, dir, inode, flags, name), root, parts + [name]) == Ok(inode)
      <==> FindItem(items, name) == |items|
  {
    hide Items, FindItem, CString, ItemBytes, PaddedName, IsDirectory;
    var files' := Created(files, dir, inode, flags, name);
    var items, it := DirectoryItems(files[dir]).value, Item(inode, PaddedName(name));
    CreateKeepsPaths(files, dir, inode, flags, name, root, parts);
    WalkSplit(files', root, parts, [name]);
    CreatedItems(files, dir, inode, flags, name);
    PaddedNameBack(name);
    FindSnoc(items, it, name);
    var k := FindItem(items, name);
    if k < |items| {
      assert items[k].inode in files;
    }
    assert [name][1..] == [];
  }

  /** The same said of walks alone, whether the parent is readable or not: the new path resolves to the
      new inode if and only if there was nothing at it. */
  lemma CreateThenWalk(files: Files, dir: int, inode: nat, flags: byte, name: seq<byte>, root: int,
                       parts: seq<seq<byte>>)
    requires CanPlace(files, dir, inode, name) && Closed(files) && root in files
    requires Walk(files, root, parts) == Ok(dir)
    ensures Walk(Created(files, dir, inode, flags, name), root, parts + [name]) == Ok(inode)
            <==> Walk(files, root, parts + [name]) == Fatal(NotFound)
  {
    hide Items, FindItem, CString, ItemBytes, PaddedName;
    WalkSplit(files, root, parts, [name]);
    assert [name][1..] == [];
    if DirectoryItems(files[dir]).Ok? {
      CreateThenLocate(files, dir, inode, flags, name, root, parts);
      var items := DirectoryItems(files[dir]).value;
      var k := FindItem(items, name);
    } else {
      CreateKeepsPaths(files, dir, inode, flags, name, root, parts);
      WalkSplit(Created(files, dir, inode, flags, name), root, parts, [name]);
    }
  }

  /** A creation keeps the namespace closed. */
  lemma CreateClosed(files: Files, dir: int, inode: nat, flags: byte, name: seq<byte>)
    requires CanCreate(files, dir, inode, name) && Closed(files)
    ensures Closed(Created(files, dir, inode, flags, name))
  {
    hide ItemBytes, PaddedName, IsDirectory, CString;
    var files' := Created(files, dir, inode, flags, name);
    CreatedItems(files, dir, inode, flags, name);
    PaddedNameBack(name);
    forall h, i | h in files' && DirectoryItems(files'[h]).Ok? && 0 <= i < |DirectoryItems(files'[h]).value|
      ensures DirectoryItems(files'[h]).value[i].inode in files' && HasNul(DirectoryItems(files'[h]).value[i].name)
    {
      if h == dir {
        var items := DirectoryItems(files[dir]).value;
        if i < |items| { assert items[i].inode in files && HasNul(items[i].name); }
      } else if h != inode {
        assert DirectoryItems(files[h]).value[i].inode in files;
      }
    }
  }
}
