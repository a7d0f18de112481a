/** split_path: a path string into components, in two passes over the string. */
module Paths {
  import opened Bytes
  import opened Results
  import opened Namespace

  const SLASH: byte := 47

  /** The C structure: k C strings in one buffer, and where each starts. */
  datatype Path = Path(line: array<byte>, parts: array<nat>, count: nat)

  predicate DoubleAt(s: seq<byte>, i: nat)
    requires i + 1 < |s|
  {
    s[i] == SLASH && s[i + 1] == SLASH
  }

  predicate NoDouble(s: seq<byte>) { forall i :: 0 <= i < |s| - 1 ==> !DoubleAt(s, i) }

  /** What split_path accepts: a leading slash, and no two slashes in a row. */
  predicate ValidPath(path: seq<byte>) {
    0 < |path| && path[0] == SLASH && NoDouble(path)
  }

  /** Length of the component s starts with. */
  function NameLen(s: seq<byte>): (n: nat)
    ensures n <= |s| && SLASH !in s[..n] && (n < |s| ==> s[n] == SLASH)
  {
    if s == [] || s[0] == SLASH then 0 else
      var n := 1 + NameLen(s[1..]);
      assert s[..n] == [s[0]] + s[1..][..n - 1];
      n
  }

  /** The components of s, which starts right behind a slash. */
  function Split(s: seq<byte>): seq<seq<byte>> {
    if s == [] then [] else
      var n := NameLen(s);
      [s[..n]] + if n < |s| then Split(s[n + 1..]) else []
  }

  function Tokens(path: seq<byte>): seq<seq<byte>>
    requires ValidPath(path)
  {
    Split(path[1..])
  }

  function Join(parts: seq<seq<byte>>): seq<byte> {
    if parts == [] then [] else if |parts| == 1 then parts[0] else parts[0] + [SLASH] + Join(parts[1..])
  }

  ghost predicate Component(c: seq<byte>) { c != [] && SLASH !in c }

  // ---- Parsing what was printed, printing what was parsed ----

  lemma {:induction false} NameLenOf(c: seq<byte>, rest: seq<byte>)
    requires SLASH !in c && (rest == [] || rest[0] == SLASH)
    ensures NameLen(c + rest) == |c|
  {
    if c == [] {
      assert c + rest == rest;
    } else {
      assert c[0] in c;
      assert (c + rest)[1..] == c[1..] + rest;
      assert forall x :: x in c[1..] ==> x in c;
      NameLenOf(c[1..], rest);
    }
  }

  lemma JoinCons(c: seq<byte>, parts: seq<seq<byte>>)
    ensures Join([c] + parts) == if parts == [] then c else c + [SLASH] + Join(parts)
  {
    assert ([c] + parts)[1..] == parts;
  }

  lemma SplitFirst(s: seq<byte>)
    requires s != []
    ensures var n := NameLen(s);
      Split(s) == if n + 1 < |s| then [s[..n]] + Split(s[n + 1..]) else [s[..n]]
  {
    var n := NameLen(s);
    if n < |s| && n + 1 == |s| { assert s[n + 1..] == []; }
  }

  lemma NothingToJoin()
    ensures Split([]) == [] && Join([]) == []
  {
  }

  lemma {:induction false} SplitJoin(parts: seq<seq<byte>>, tail: seq<byte>)
    requires forall i :: 0 <= i < |parts| ==> Component(parts[i])
    requires tail == [] || (tail == [SLASH] && parts != [])
    ensures Split(Join(parts) + tail) == parts
    ensures parts != [] ==> Join(parts) != []
    decreases |parts|
  {
    hide Split, Join, NameLen;
    NothingToJoin();
    if parts == [] {
      assert Join(parts) + tail == [];
    } else {
      var c, s := parts[0], Join(parts) + tail;
      assert parts == [c] + parts[1..];
      JoinCons(c, parts[1..]);
      SplitFirst(s);
      if |parts| == 1 {
        NameLenOf(c, tail);
      } else {
        var rest := Join(parts[1..]) + tail;
        SplitJoin(parts[1..], tail);
        assert s == c + ([SLASH] + rest);
        NameLenOf(c, [SLASH] + rest);
        assert s[..|c|] == c && s[|c| + 1..] == rest;
      }
    }
  }

  /** No two slashes in a row, and none in front. */
  ghost predicate Single(s: seq<byte>) {
    (s != [] ==> s[0] != SLASH) && NoDouble(s)
  }

  lemma NoDoubleSuffix(s: seq<byte>, n: nat)
    requires n <= |s| && NoDouble(s)
    ensures NoDouble(s[n..])
  {
    forall i | 0 <= i < |s[n..]| - 1
      ensures !DoubleAt(s[n..], i)
    {
      assert !DoubleAt(s, n + i);
    }
  }

  /** Putting a component, and a slash unless it is the end, in front keeps slashes apart. */
  lemma NoDoublePrefix(c: seq<byte>, rest: seq<byte>)
    requires SLASH !in c && Single(rest)
    ensures NoDouble(c + [SLASH] + rest) && NoDouble(c) && NoDouble([SLASH] + rest) && NoDouble(c + [SLASH])
  {
    var s := c + [SLASH] + rest;
    forall i | 0 <= i < |s| - 1
      ensures !DoubleAt(s, i)
    {
      if i < |c| { assert s[i] == c[i]; }
      if i > |c| { assert !DoubleAt(rest, i - |c| - 1); }
    }
    assert s[|c|..] == [SLASH] + rest;
    NoDoubleSuffix(s, |c|);
    assert forall i :: 0 <= i < |c| - 1 ==> c[i] != SLASH;
    forall i | 0 <= i < |c|
      ensures !DoubleAt(c + [SLASH], i)
    {
      assert (c + [SLASH])[i] == c[i];
    }
  }

  lemma {:induction false} JoinSingle(parts: seq<seq<byte>>, tail: seq<byte>)
    requires forall i :: 0 <= i < |parts| ==> Component(parts[i])
    requires tail == [] || (tail == [SLASH] && parts != [])
    ensures Single(Join(parts) + tail)
    decreases |parts|
  {
    if parts != [] {
      var c, s := parts[0], Join(parts) + tail;
      assert c[0] in c;
      if |parts| == 1 {
        NoDoublePrefix(c, []);
        assert s == c + tail;
      } else {
        var rest := Join(parts[1..]) + tail;
        JoinSingle(parts[1..], tail);
        NoDoublePrefix(c, rest);
        assert s == c + [SLASH] + rest;
      }
    }
  }

  /** Splitting "/" followed by the joined components gives back the components, and a single
      trailing slash (the tail) changes nothing. */
  lemma ParsePrinted(parts: seq<seq<byte>>, tail: seq<byte>)
    requires forall i :: 0 <= i < |parts| ==> Component(parts[i])
    requires tail == [] || (tail == [SLASH] && parts != [])
    ensures ValidPath([SLASH] + (Join(parts) + tail)) && Tokens([SLASH] + (Join(parts) + tail)) == parts
  {
    hide Split, Join, NoDouble;
    var rest := Join(parts) + tail;
    JoinSingle(parts, tail);
    SplitJoin(parts, tail);
    NoDoublePrefix([], rest);
    assert ([SLASH] + rest)[1..] == rest;
  }

  lemma SuffixSingle(s: seq<byte>, n: nat)
    requires NoDouble(s) && n + 1 < |s| && s[n] == SLASH
    ensures Single(s[n + 1..])
  {
    NoDoubleSuffix(s, n + 1);
    assert !DoubleAt(s, n);
  }

  lemma {:induction false} SplitParts(s: seq<byte>)
    requires Single(s)
    ensures forall i :: 0 <= i < |Split(s)| ==> Component(Split(s)[i])
    ensures s == Join(Split(s)) || s == Join(Split(s)) + [SLASH]
    decreases |s|
  {
    hide Split, Join, NoDouble, NameLen;
    NothingToJoin();
    if s != [] {
      var n := NameLen(s);
      var c := s[..n];
      SplitFirst(s);
      if n + 1 < |s| {
        var t := s[n + 1..];
        SuffixSingle(s, n);
        SplitParts(t);
        SplitFirst(t);
        JoinCons(c, Split(t));
        Glue(s, n, Join(Split(t)));
      } else {
        JoinCons(c, []);
        Glue(s, n, []);
        assert [c] + [] == [c];
      }
    }
  }

  lemma Glue(s: seq<byte>, n: nat, rest: seq<byte>)
    requires n <= |s| && (n < |s| ==> s[n] == SLASH)
    ensures n + 1 < |s| && s[n + 1..] == rest ==> s == s[..n] + [SLASH] + rest
    ensures n + 1 < |s| && s[n + 1..] == rest + [SLASH] ==> s == s[..n] + [SLASH] + rest + [SLASH]
    ensures n + 1 >= |s| ==> s == s[..n] || s == s[..n] + [SLASH]
  {
    if n + 1 < |s| { assert s == s[..n] + [SLASH] + s[n + 1..]; }
  }

  /** Every accepted path is "/" and its components joined, perhaps with one more slash. */
  lemma PrintParsed(path: seq<byte>)
    requires ValidPath(path)
    ensures forall i :: 0 <= i < |Tokens(path)| ==> Component(Tokens(path)[i])
    ensures path == [SLASH] + Join(Tokens(path)) || path == [SLASH] + Join(Tokens(path)) + [SLASH]
  {
    var s := path[1..];
    NoDoubleSuffix(path, 1);
    if |path| > 1 { assert !DoubleAt(path, 0); }
    SplitParts(s);
    assert path == [SLASH] + s;
  }

  // ---- The two passes ----

  /** The first pass counts: components, and bytes that are not slashes. */
  function Components(path: seq<byte>, i: nat): (k: nat)
    requires i <= |path|
    ensures k <= i
  {
    if i == 0 then 0 else Components(path, i - 1) + if path[i - 1] == SLASH && i < |path| then 1 else 0
  }

  function Letters(path: seq<byte>, i: nat): (n: nat)
    requires i <= |path|
    ensures n <= i
  {
    if i == 0 then 0 else Letters(path, i - 1) + if path[i - 1] != SLASH then 1 else 0
  }

  lemma {:induction false} CountsGrow(path: seq<byte>, i: nat, j: nat)
    requires i <= j <= |path|
    ensures Components(path, i) <= Components(path, j) && Letters(path, i) <= Letters(path, j)
  {
    if i < j { CountsGrow(path, i, j - 1); }
  }

  /** What the second pass writes into the line, and the starts it records, for the rest s of the
      path when at bytes of the line are filled. */
  function Emit(s: seq<byte>): seq<byte> {
    if s == [] then []
    else if s[0] != SLASH then [s[0]] + Emit(s[1..])
    else if 1 < |s| then [0] + Emit(s[1..])
    else []
  }

  function Starts(s: seq<byte>, at: nat): seq<nat> {
    if s == [] then []
    else if s[0] != SLASH then Starts(s[1..], at + 1)
    else if 1 < |s| then [at + 1] + Starts(s[1..], at + 1)
    else []
  }

  /** The line: each component followed by a NUL. */
  function Lines(parts: seq<seq<byte>>): seq<byte> {
    if parts == [] then [] else parts[0] + [0] + Lines(parts[1..])
  }

  function Offsets(parts: seq<seq<byte>>, at: nat): (r: seq<nat>)
    ensures |r| == |parts|
  {
    if parts == [] then [] else [at] + Offsets(parts[1..], at + |parts[0]| + 1)
  }

  lemma {:induction false} EmitName(c: seq<byte>, rest: seq<byte>, at: nat)
    requires SLASH !in c
    ensures Emit(c + rest) == c + Emit(rest) && Starts(c + rest, at) == Starts(rest, at + |c|)
  {
    if c == [] {
      assert c + rest == rest;
    } else {
      assert c[0] in c;
      assert (c + rest)[1..] == c[1..] + rest;
      assert forall x :: x in c[1..] ==> x in c;
      EmitName(c[1..], rest, at + 1);
    }
  }

  lemma LinesCons(c: seq<byte>, parts: seq<seq<byte>>, at: nat)
    ensures Lines([c] + parts) == c + [0] + Lines(parts)
    ensures Offsets([c] + parts, at) == [at] + Offsets(parts, at + |c| + 1)
  {
    assert ([c] + parts)[1..] == parts;
  }

  lemma EmitSlash(rest: seq<byte>, at: nat)
    requires rest == [] || rest[0] == SLASH
    ensures Emit(rest) == if 1 < |rest| then [0] + Emit(rest[1..]) else []
    ensures Starts(rest, at) == if 1 < |rest| then [at + 1] + Starts(rest[1..], at + 1) else []
  {
  }

  /** The second pass lays out exactly the components. */
  lemma {:induction false} EmitSplit(s: seq<byte>, at: nat)
    requires Single(s) && s != []
    ensures Emit(s) + [0] == Lines(Split(s)) && [at] + Starts(s, at) == Offsets(Split(s), at)
    decreases |s|
  {
    hide Emit, Starts, Lines, Offsets, Split, NoDouble;
    var n := NameLen(s);
    var c, rest := s[..n], s[n..];
    assert s == c + rest;
    EmitName(c, rest, at);
    EmitSlash(rest, at + n);
    SplitFirst(s);
    if n + 1 < |s| {
      var t := s[n + 1..];
      assert rest[1..] == t;
      SuffixSingle(s, n);
      EmitSplit(t, at + n + 1);
      LinesCons(c, Split(t), at);
      Append3(c, Emit(t), [0]);
    } else {
      LinesCons(c, [], at);
      NoLines(at + n + 1);
      assert [c] + [] == [c];
      Append3(c, [], [0]);
    }
  }

  lemma Append3(c: seq<byte>, e: seq<byte>, z: seq<byte>)
    ensures c + (z + e) + z == c + z + (e + z) && c + [] + z == c + z + []
  {
  }

  lemma NoLines(at: nat)
    ensures Lines([]) == [] && Offsets([], at) == []
  {
  }

  lemma {:induction false} EmitCounts(path: seq<byte>, i: nat, at: nat)
    requires 1 <= i <= |path|
    ensures |Emit(path[i..])| ==
            Letters(path, |path|) - Letters(path, i) + Components(path, |path|) - Components(path, i)
    ensures |Starts(path[i..], at)| == Components(path, |path|) - Components(path, i)
    decreases |path| - i
  {
    if i < |path| {
      assert path[i..][1..] == path[i + 1..];
      EmitCounts(path, i + 1, at + 1);
    }
  }

  /** The first pass: refuses a path, or sizes the two buffers. */
  method Measure(path: seq<byte>) returns (r: Result<(nat, nat)>)
    ensures r.Fatal? <==> !ValidPath(path)
    ensures r.Fatal? ==> r.error == InvalidPath
    ensures r.Ok? ==> r.value == (Components(path, |path|), Letters(path, |path|))
  {
    if |path| == 0 || path[0] != SLASH {
      return Fatal(InvalidPath);
    }
    var k, len, i := 0, 0, 0;
    while i < |path|
      invariant i <= |path| && k == Components(path, i) && len == Letters(path, i)
      invariant forall j :: 0 <= j < i && j < |path| - 1 ==> !DoubleAt(path, j)
    {
      if path[i] == SLASH && i + 1 < |path| && path[i + 1] == SLASH {
        assert DoubleAt(path, i);
        return Fatal(InvalidPath);
      }
      if path[i] == SLASH && i + 1 < |path| {
        k := k + 1;
      }
      if path[i] != SLASH {
        len := len + 1;
      }
      i := i + 1;
    }
    return Ok((k, len));
  }

  /** The sizes of the first pass are what the second pass needs. */
  lemma Measured(path: seq<byte>)
    requires ValidPath(path)
    ensures var k, len := Components(path, |path|), Letters(path, |path|);
      && |Tokens(path)| == k && |Lines(Tokens(path))| == len + k
      && Lines(Tokens(path)) == Emit(path[1..]) + (if 1 < |path| then [0] else [])
      && (1 < |path| ==> 1 <= k && Offsets(Tokens(path), 0) == [0] + Starts(path[1..], 0))
      && (|path| == 1 ==> Tokens(path) == [] && Emit(path[1..]) == [] && k == 0 && len == 0)
  {
    hide Emit, Starts, Lines, Offsets, Split, NoDouble;
    EmitCounts(path, 1, 0);
    FirstCounts(path);
    if 1 < |path| {
      SuffixSingle(path, 0);
      EmitSplit(path[1..], 0);
    } else {
      assert path[1..] == [];
      NothingLeft();
      NoLines(0);
    }
  }

  lemma NothingLeft()
    ensures Split([]) == [] && Emit([]) == []
  {
  }

  lemma FirstCounts(path: seq<byte>)
    requires 0 < |path| && path[0] == SLASH
    ensures Letters(path, 1) == 0 && Components(path, 1) == if 1 < |path| then 1 else 0
    ensures |path| == 1 ==> Letters(path, |path|) == 0 && Components(path, |path|) == 0
  {
    assert Letters(path, 0) == 0 && Components(path, 0) == 0;
    CountsGrow(path, 1, |path|);
  }

  lemma EmitFirst(s: seq<byte>, at: nat)
    requires s != []
    ensures Emit(s) == if s[0] != SLASH then [s[0]] + Emit(s[1..])
                       else if 1 < |s| then [0] + Emit(s[1..]) else Emit(s[1..])
    ensures Starts(s, at) == if s[0] != SLASH then Starts(s[1..], at + 1)
                             else if 1 < |s| then [at + 1] + Starts(s[1..], at + 1) else Starts(s[1..], at)
  {
    if |s| == 1 { assert s[1..] == []; }
  }

  lemma StartsSize(path: seq<byte>)
    requires ValidPath(path)
    ensures |Starts(path[1..], 0)| + (if 1 < |path| then 1 else 0) == |Tokens(path)|
  {
    Measured(path);
    hide Starts, Emit, Lines, Split, NoDouble;
    if |path| == 1 { assert path[1..] == []; NoStartsAt(0); }
  }

  /** The second pass fills the line and the starts, and never leaves either buffer. */
  method Fill(path: seq<byte>, line: array<byte>, parts: array<nat>)
    requires ValidPath(path) && line as object != parts
    requires line.Length == |Lines(Tokens(path))| && parts.Length == |Tokens(path)| + 1
    requires (forall j :: 0 <= j < line.Length ==> line[j] == 0) && forall j :: 0 <= j < parts.Length ==> parts[j] == 0
    modifies line, parts
    ensures line[..] == Lines(Tokens(path)) && parts[..|Tokens(path)|] == Offsets(Tokens(path), 0)
  {
    hide Emit, Starts, Lines, Offsets, Split, NoDouble, Components, Letters;
    Measured(path);
    var linePointer: nat, resPointer: nat, i: nat := 0, 0, 0;
    StartsSize(path);
    assert line[..0] == [] && parts[..1] == [0];
    while i < |path|
      invariant i <= |path|
      invariant Filling(path, i, line[..], parts[..], linePointer, resPointer)
    {
      FillingBounds(path, i, line[..], parts[..], linePointer, resPointer);
      ghost var was, starts, at, last := line[..], parts[..], linePointer, resPointer;
      if path[i] != SLASH {
        line[linePointer] := path[i];
        assert line[..] == was[linePointer := path[i]] && parts[..] == starts;
        linePointer := linePointer + 1;
      } else if i != 0 && i + 1 < |path| {
        linePointer := linePointer + 1;
        resPointer := resPointer + 1;
        parts[resPointer] := linePointer;
        assert parts[..] == starts[resPointer := linePointer] && line[..] == was;
      }
      FillingStep(path, i, was, starts, at, last, line[..], parts[..], linePointer, resPointer);
      i := i + 1;
    }
    FillingDone(path, line[..], parts[..], linePointer, resPointer);
    assert parts[..][..|Tokens(path)|] == parts[..|Tokens(path)|];
  }

  /** The second pass before byte i: what it has laid out and what the rest will add make the whole. */
  ghost predicate Filling(path: seq<byte>, i: nat, line: seq<byte>, parts: seq<nat>, at: nat, last: nat)
    requires 0 < |path|
  {
    && i <= |path| && at <= |line| && last < |parts|
    && |line| == |Emit(path[1..])| + (if 1 < |path| then 1 else 0) && |Starts(path[1..], 0)| < |parts|
    && (1 < |path| ==> |Starts(path[1..], 0)| + 1 < |parts|)
    && (forall j :: at <= j < |line| ==> line[j] == 0)
    && var s := path[if i == 0 then 1 else i..];
    && line[..at] + Emit(s) == Emit(path[1..])
    && parts[..last + 1] + Starts(s, at) == [0] + Starts(path[1..], 0)
  }

  lemma FillingBounds(path: seq<byte>, i: nat, line: seq<byte>, parts: seq<nat>, at: nat, last: nat)
    requires ValidPath(path) && i < |path| && Filling(path, i, line, parts, at, last)
    ensures path[i] != SLASH ==> at < |line|
    ensures path[i] == SLASH && i != 0 && i + 1 < |path| ==> at < |line| && last + 1 < |parts|
  {
    if i != 0 {
      EmitFirst(path[i..], at);
      hide Emit, Starts, NoDouble;
      assert |line[..at]| + |Emit(path[i..])| == |Emit(path[1..])|;
      assert |parts[..last + 1]| + |Starts(path[i..], at)| == 1 + |Starts(path[1..], 0)|;
    }
  }

  /** One byte of the second pass. */
  ghost predicate FillMove(path: seq<byte>, i: nat, line: seq<byte>, parts: seq<nat>, at: nat, last: nat,
                           line': seq<byte>, parts': seq<nat>, at': nat, last': nat)
    requires i < |path| && at <= |line| && last < |parts|
  {
    if path[i] != SLASH then
      at < |line| && line' == line[at := path[i]] && parts' == parts && at' == at + 1 && last' == last
    else if i != 0 && i + 1 < |path| then
      at < |line| && last + 1 < |parts|
      && line' == line && parts' == parts[last + 1 := at + 1] && at' == at + 1 && last' == last + 1
    else line' == line && parts' == parts && at' == at && last' == last
  }

  lemma FillingStep(path: seq<byte>, i: nat, line: seq<byte>, parts: seq<nat>, at: nat, last: nat,
                    line': seq<byte>, parts': seq<nat>, at': nat, last': nat)
    requires ValidPath(path) && i < |path| && Filling(path, i, line, parts, at, last)
    requires FillMove(path, i, line, parts, at, last, line', parts', at', last')
    ensures Filling(path, i + 1, line', parts', at', last')
  {
    hide Emit, Starts, NoDouble;
    if i != 0 {
      var s, t := path[i..], path[i + 1..];
      assert s[1..] == t && s[0] == path[i];
      EmitFirst(s, at);
      if path[i] != SLASH {
        Appended(line, at, path[i], Emit(t));
      } else if i + 1 < |path| {
        assert line'[..at'] == line[..at] + [0];
        Appended(line, at, 0, Emit(t));
        Appended(parts, last + 1, at + 1, Starts(t, at'));
      }
    }
  }

  lemma Appended<T>(s: seq<T>, at: nat, x: T, rest: seq<T>)
    requires at < |s|
    ensures s[at := x][..at + 1] + rest == s[..at] + ([x] + rest)
  {
  }

  lemma FillingDone(path: seq<byte>, line: seq<byte>, parts: seq<nat>, at: nat, last: nat)
    requires ValidPath(path) && Filling(path, |path|, line, parts, at, last) && |parts| == |Tokens(path)| + 1
    ensures line == Lines(Tokens(path)) && parts[..|Tokens(path)|] == Offsets(Tokens(path), 0)
  {
    hide Emit, Starts, Lines, Offsets, Split, NoDouble;
    Measured(path);
    StartsSize(path);
    NothingLeft();
    NoStartsAt(at);
    NoLines(0);
    assert path[|path|..] == [];
    assert line[..at] == Emit(path[1..]);
    if 1 < |path| {
      assert line == line[..at] + [0];
      assert parts[..last + 1] == [0] + Starts(path[1..], 0);
    }
  }

  lemma NoStartsAt(at: nat)
    ensures Starts([], at) == []
  {
  }

  // ---- split_path ----

  lemma {:induction false} LinesShift(parts: seq<seq<byte>>, at: nat, shift: nat, j: nat)
    requires j < |parts|
    ensures Offsets(parts, at + shift)[j] == Offsets(parts, at)[j] + shift
    decreases |parts|
  {
    if j > 0 { LinesShift(parts[1..], at + |parts[0]| + 1, shift, j - 1); }
  }

  /** The C string at the j-th start is the j-th component. */
  lemma {:induction false} PartAt(parts: seq<seq<byte>>, j: nat)
    requires j < |parts| && forall i :: 0 <= i < |parts| ==> 0 !in parts[i]
    ensures Offsets(parts, 0)[j] <= |Lines(parts)| && CString(Lines(parts)[Offsets(parts, 0)[j]..]) == parts[j]
    decreases |parts|
  {
    hide CString;
    var c, rest := parts[0], Lines(parts[1..]);
    assert Lines(parts) == c + [0] + rest;
    if j == 0 {
      assert Lines(parts) == c + ([0] + rest);
      CStringPrefix(c, [0] + rest);
    } else {
      PartAt(parts[1..], j - 1);
      LinesShift(parts[1..], 0, |c| + 1, j - 1);
      var o := Offsets(parts[1..], 0)[j - 1];
      assert Lines(parts)[|c| + 1 + o..] == rest[o..];
    }
  }

  lemma {:induction false} SplitBytes(s: seq<byte>)
    requires 0 !in s
    ensures forall i :: 0 <= i < |Split(s)| ==> 0 !in Split(s)[i]
    decreases |s|
  {
    if s != [] {
      var n := NameLen(s);
      assert forall x :: x in s[..n] ==> x in s;
      if n < |s| {
        assert forall x :: x in s[n + 1..] ==> x in s;
        SplitBytes(s[n + 1..]);
        assert Split(s)[1..] == Split(s[n + 1..]);
      }
    }
  }

  /** split_path returns the components of the path, each as a C string of its own in one buffer
      of exactly the size they need; it dies on any other path. */
  method SplitPath(path: seq<byte>) returns (r: Result<Path>)
    requires 0 !in path
    ensures r.Fatal? <==> !ValidPath(path)
    ensures r.Fatal? ==> r.error == InvalidPath
    ensures r.Ok? ==> fresh(r.value.line) && fresh(r.value.parts)
    ensures r.Ok? ==> r.value.count == |Tokens(path)| < r.value.parts.Length
    ensures r.Ok? ==> r.value.line[..] == Lines(Tokens(path))
    ensures r.Ok? ==> PartsOf(r.value) == Tokens(path)
  {
    hide Emit, Starts, Lines, Offsets, Split, NoDouble, CString, Letters, Components;
    var sizes :- Measure(path);
    var (k, len) := sizes;
    Measured(path);
    var parts := new nat[k + 1](_ => 0);
    var line := new byte[len + k](_ => 0);
    Fill(path, line, parts);
    r := Ok(Path(line, parts, k));
    SplitBytesOf(path);
    forall j | 0 <= j < k
      ensures parts[j] <= line.Length && CString(line[..][parts[j]..]) == Tokens(path)[j]
    {
      PartAt(Tokens(path), j);
      assert parts[..k][j] == parts[j];
    }
  }

  lemma SplitBytesOf(path: seq<byte>)
    requires ValidPath(path) && 0 !in path
    ensures forall i :: 0 <= i < |Tokens(path)| ==> 0 !in Tokens(path)[i]
  {
    assert forall x :: x in path[1..] ==> x in path;
    SplitBytes(path[1..]);
  }

  /** The components as the C strings a Path holds. */
  function PartsOf(path: Path): (parts: seq<seq<byte>>)
    reads path.line, path.parts
    ensures |parts| == path.count
  {
    seq(path.count, j reads path.line, path.parts =>
      if 0 <= j < path.parts.Length && path.parts[j] <= path.line.Length
      then CString(path.line[path.parts[j]..]) else [])
  }
}
