/** The wire format of requests, and the loops that move it through a socket in short pieces. */
module Wire {
  import opened Bytes

  datatype Option<+T> = None | Some(value: T)

  const TYPE_SIZE := 4   // sizeof(enum FsOpType)
  const OFFSET_AT := 16  // FsOpRead.offset and FsOpWrite.offset, behind the path's length and pointer
  const LENGTH_AT := 24  // FsOpRead.length and FsOpWrite.length
  const FLAGS_FIELD := 16  // FsOpCreate.flags

  /** A request. A write's length is the number of its data bytes. */
  datatype Op =
    | Read(path: seq<byte>, offset: nat, length: nat)
    | Write(path: seq<byte>, offset: nat, data: seq<byte>)
    | Create(path: seq<byte>, flags: byte)
    | Remove(path: seq<byte>)
    | Stat(path: seq<byte>)
    | ReadDir(path: seq<byte>)
  {
    /** The numbers fit a size_t. */
    ghost predicate Ok() {
      && |path| < LIMIT
      && (Read? ==> offset < LIMIT && length < LIMIT)
      && (Write? ==> offset < LIMIT && |data| < LIMIT)
    }

    /** The FSOP_ constant. */
    function Type(): (t: nat)
      ensures t < TYPES
    {
      if Read? then 0 else if Write? then 1 else if Create? then 2 else if Remove? then 3 else if Stat? then 4 else 5
    }
  }

  const TYPES := 6

  /** sizeof the packed argument structs. */
  function StructSize(t: nat): nat {
    if t == 0 then 32 else if t == 1 then 40 else if t == 2 then 17 else 16
  }

  /** The argument struct as it lies in the sender's memory, with pointers path and data. */
  function StructBytes(op: Op, path: nat, data: nat): (s: seq<byte>)
    ensures |s| == StructSize(op.Type())
  {
    EncodeWord(|op.path|) + EncodeWord(path) +
    match op
    case Read(_, offset, length) => EncodeWord(offset) + EncodeWord(length)
    case Write(_, offset, bytes) => EncodeWord(offset) + EncodeWord(|bytes|) + EncodeWord(data)
    case Create(_, flags) => [flags]
    case _ => []
  }

  function ArrayBytes(s: seq<byte>): seq<byte> { EncodeWord(|s|) + s }

  function ArgBytes(op: Op, path: nat, data: nat): seq<byte> {
    StructBytes(op, path, data) + ArrayBytes(op.path) + if op.Write? then ArrayBytes(op.data) else []
  }

  /** Everything one request puts on the wire. */
  function OpBytes(op: Op, path: nat, data: nat): seq<byte> {
    Encode(op.Type(), TYPE_SIZE) + ArgBytes(op, path, data)
  }

  // ---- What a complete stream means ----

  function TakeArray(s: seq<byte>): Option<(seq<byte>, seq<byte>)> {
    if |s| < WORD || |s| - WORD < Decode(s[..WORD]) then None
    else var n := Decode(s[..WORD]); Some((s[WORD..WORD + n], s[WORD + n..]))
  }

  /** The operation of type t whose struct and arrays were read. */
  function Assemble(t: nat, args: seq<byte>, path: seq<byte>, data: seq<byte>): Op
    requires |args| == StructSize(t)
  {
    if t == 0 then
      Read(path, Decode(args[OFFSET_AT..OFFSET_AT + WORD]), Decode(args[LENGTH_AT..LENGTH_AT + WORD]))
    else if t == 1 then Write(path, Decode(args[OFFSET_AT..OFFSET_AT + WORD]), data)
    else if t == 2 then Create(path, args[FLAGS_FIELD])
    else if t == 3 then Remove(path)
    else if t == 4 then Stat(path)
    else ReadDir(path)
  }

  function ParseArgs(t: nat, s: seq<byte>): Option<(Op, seq<byte>)> {
    if |s| < StructSize(t) then None else
      var path := TakeArray(s[StructSize(t)..]);
      if path.None? then None
      else if t != 1 then Some((Assemble(t, s[..StructSize(t)], path.value.0, []), path.value.1)) else
        var data := TakeArray(path.value.1);
        if data.None? then None
        else Some((Assemble(t, s[..StructSize(t)], path.value.0, data.value.0), data.value.1))
  }

  /** The first message of a stream: none, one of no known type, one that the stream cuts off, or an
      operation. */
  datatype Parsed = Ended | Unknown(rest: seq<byte>) | Cut | Got(op: Op, rest: seq<byte>)

  function Parse(s: seq<byte>): (p: Parsed)
    ensures p.Got? || p.Unknown? ==> |p.rest| < |s|
  {
    if |s| < TYPE_SIZE then Ended else
      var t := Decode(s[..TYPE_SIZE]);
      if t >= TYPES then Unknown(s[TYPE_SIZE..]) else
        var args := ParseArgs(t, s[TYPE_SIZE..]);
        if args.None? then Cut else Got(args.value.0, args.value.1)
  }

  /** All operations of a stream, up to a message cut off. */
  function ParseAll(s: seq<byte>): seq<Op>
    decreases |s|
  {
    match Parse(s)
    case Got(op, rest) => [op] + ParseAll(rest)
    case Unknown(rest) => ParseAll(rest)
    case _ => []
  }

  // ---- Round trips ----

  lemma TakeArrayBytes(s: seq<byte>, rest: seq<byte>)
    requires |s| < LIMIT
    ensures TakeArray(ArrayBytes(s) + rest) == Some((s, rest))
  {
    hide Encode, Decode;
    WordRoundTrip(|s|);
    var all := ArrayBytes(s) + rest;
    assert all[..WORD] == EncodeWord(|s|);
    assert all[WORD..WORD + |s|] == s && all[WORD + |s|..] == rest;
  }

  lemma StructFields(op: Op, path: nat, data: nat)
    requires op.Ok()
    ensures Assemble(op.Type(), StructBytes(op, path, data), op.path, if op.Write? then op.data else []) == op
  {
    hide Encode, Decode;
    var args := StructBytes(op, path, data);
    if op.Read? || op.Write? {
      WordRoundTrip(op.offset);
      assert args[OFFSET_AT..OFFSET_AT + WORD] == EncodeWord(op.offset);
    }
    if op.Read? {
      WordRoundTrip(op.length);
      assert args[LENGTH_AT..LENGTH_AT + WORD] == EncodeWord(op.length);
    }
  }

  lemma ArgsRoundTrip(op: Op, path: nat, data: nat, rest: seq<byte>)
    requires op.Ok()
    ensures ParseArgs(op.Type(), ArgBytes(op, path, data) + rest) == Some((op, rest))
  {
    hide Encode, Decode, EncodeWord, StructBytes, ArrayBytes, TakeArray, Assemble;
    var tail := if op.Write? then ArrayBytes(op.data) else [];
    var s, n := ArgBytes(op, path, data) + rest, StructSize(op.Type());
    StructFields(op, path, data);
    assert s[..n] == StructBytes(op, path, data);
    assert s[n..] == ArrayBytes(op.path) + (tail + rest);
    TakeArrayBytes(op.path, tail + rest);
    if op.Write? {
      TakeArrayBytes(op.data, rest);
    } else {
      assert tail + rest == rest;
    }
  }

  /** Reading what was written gives the same operation back, whatever the sender's pointers were,
      and takes exactly its bytes. */
  lemma RoundTrip(op: Op, path: nat, data: nat, rest: seq<byte>)
    requires op.Ok()
    ensures Parse(OpBytes(op, path, data) + rest) == Got(op, rest)
  {
    hide Encode, Decode, ArgBytes, ParseArgs;
    var s := OpBytes(op, path, data) + rest;
    assert Pow256(TYPE_SIZE) == 0x1_0000_0000;
    DecodeEncode(op.Type(), TYPE_SIZE);
    assert s[..TYPE_SIZE] == Encode(op.Type(), TYPE_SIZE);
    assert s[TYPE_SIZE..] == ArgBytes(op, path, data) + rest;
    ArgsRoundTrip(op, path, data, rest);
  }

  /** A request with the two pointers its sender happens to hold. */
  datatype Message = Message(op: Op, path: nat, data: nat)

  function MessageBytes(ms: seq<Message>): seq<byte> {
    if ms == [] then [] else OpBytes(ms[0].op, ms[0].path, ms[0].data) + MessageBytes(ms[1..])
  }

  function Ops(ms: seq<Message>): seq<Op> {
    if ms == [] then [] else [ms[0].op] + Ops(ms[1..])
  }

  /** Messages written one after the other are read as the same list. */
  lemma {:induction false} StreamRoundTrip(ms: seq<Message>)
    requires forall i :: 0 <= i < |ms| ==> ms[i].op.Ok()
    ensures ParseAll(MessageBytes(ms)) == Ops(ms)
  {
    hide OpBytes, Parse;
    if ms == [] {
      assert Parse([]).Ended? by { NoMessage(); }
    } else {
      RoundTrip(ms[0].op, ms[0].path, ms[0].data, MessageBytes(ms[1..]));
      StreamRoundTrip(ms[1..]);
    }
  }

  lemma NoMessage()
    ensures Parse([]) == Ended
  {
  }

  lemma TakeArrayPrefix(s: seq<byte>, more: seq<byte>)
    requires TakeArray(s).Some?
    ensures TakeArray(s + more) == Some((TakeArray(s).value.0, TakeArray(s).value.1 + more))
  {
    hide Decode;
    var n := Decode(s[..WORD]);
    assert (s + more)[..WORD] == s[..WORD];
    assert (s + more)[WORD..WORD + n] == s[WORD..WORD + n];
    assert (s + more)[WORD + n..] == s[WORD + n..] + more;
  }

  /** What has arrived completely means the same whatever arrives behind it. */
  lemma ParsePrefix(s: seq<byte>, more: seq<byte>)
    requires Parse(s).Got?
    ensures Parse(s + more) == Got(Parse(s).op, Parse(s).rest + more)
  {
    hide Decode, TakeArray, Assemble;
    var t := Decode(s[..TYPE_SIZE]);
    var r, n := s[TYPE_SIZE..], StructSize(t);
    assert (s + more)[..TYPE_SIZE] == s[..TYPE_SIZE];
    assert (s + more)[TYPE_SIZE..] == r + more;
    assert (r + more)[..n] == r[..n];
    assert (r + more)[n..] == r[n..] + more;
    TakeArrayPrefix(r[n..], more);
    if t == 1 {
      TakeArrayPrefix(TakeArray(r[n..]).value.1, more);
    }
  }

  // ---- The socket ----

  /** One end of a connection: the bytes the peer will ever send that are not yet read, and the bytes
      put out so far. Each single transfer moves as many bytes as it likes, but at least one. */
  class Connection {
    var incoming: seq<byte>
    var outgoing: seq<byte>

    /** read(2): 0 at the end of the stream only. */
    method Receive(buf: array<byte>, at: nat, len: nat) returns (got: nat)
      requires at + len <= buf.Length && 0 < len
      modifies `incoming, buf
      ensures got <= len && got <= |old(incoming)| && (got == 0 <==> old(incoming) == [])
      ensures incoming == old(incoming)[got..]
      ensures buf[..] == Patch(old(buf[..]), at, old(incoming)[..got])
    {
      if incoming == [] {
        return 0;
      }
      got :| 0 < got <= len && got <= |incoming|;
      forall i | 0 <= i < got {
        buf[at + i] := incoming[i];
      }
      incoming := incoming[got..];
    }

    /** write(2) */
    method Transmit(data: seq<byte>) returns (put: nat)
      requires data != []
      modifies `outgoing
      ensures 0 < put <= |data| && outgoing == old(outgoing) + data[..put]
    {
      put :| 0 < put <= |data|;
      outgoing := outgoing + data[..put];
    }

    /** However the bytes arrive, exactly the next len of them are stored, if there are that many. */
    method SafeRead(buf: array<byte>, at: nat, len: nat) returns (ok: bool)
      requires at + len <= buf.Length
      modifies `incoming, buf
      ensures ok <==> len <= |old(incoming)|
      ensures ok ==> incoming == old(incoming)[len..]
      ensures ok ==> buf[..] == Patch(old(buf[..]), at, old(incoming)[..len])
      ensures !ok ==> incoming == []
    {
      hide Patch;
      ghost var s := incoming;
      PatchNone(buf[..], at);
      var ready := 0;
      while ready < len
        invariant ready <= len && ready <= |s| && incoming == s[ready..]
        invariant buf[..] == Patch(old(buf[..]), at, s[..ready])
      {
        ghost var m := buf[..];
        var actuallyGot := Receive(buf, at + ready, len - ready);
        if actuallyGot == 0 {
          return false;
        }
        PatchMore(old(buf[..]), at, s, ready, actuallyGot);
        ready := ready + actuallyGot;
      }
      return true;
    }

    method SafeWrite(data: seq<byte>)
      modifies `outgoing
      ensures outgoing == old(outgoing) + data
    {
      var ready := 0;
      while ready < |data|
        invariant ready <= |data| && outgoing == old(outgoing) + data[..ready]
      {
        var actuallyPut := Transmit(data[ready..]);
        assert data[..ready] + data[ready..][..actuallyPut] == data[..ready + actuallyPut];
        ready := ready + actuallyPut;
      }
    }

    /** The array reader: the count goes into its field of the struct, the elements into a new array. */
    method ReadArray(args: array<byte>, countAt: nat) returns (field: Option<seq<byte>>)
      requires countAt + WORD <= args.Length
      modifies `incoming, args
      ensures field.Some? <==> TakeArray(old(incoming)).Some?
      ensures field.Some? ==> (field.value, incoming) == TakeArray(old(incoming)).value
      ensures field.Some? ==> args[..] == Patch(old(args[..]), countAt, old(incoming)[..WORD])
      ensures field.None? ==> incoming == []
    {
      hide Decode, EncodeWord;
      ghost var s := incoming;
      var counted := SafeRead(args, countAt, WORD);
      if !counted {
        return None;
      }
      PatchSelf(old(args[..]), countAt, s[..WORD]);
      assert args[..][countAt..countAt + WORD] == s[..WORD];
      var n := Decode(args[countAt..countAt + WORD]);
      if n == 0 {
        assert s[WORD..WORD + n] == [];
        return Some([]);
      }
      var elements := new byte[n];
      var filled := SafeRead(elements, 0, n);
      if !filled {
        return None;
      }
      assert elements[..] == s[WORD..][..n] == s[WORD..WORD + n];
      return Some(elements[..]);
    }

    /** The reader of one operation's arguments. */
    method ReadArgs(t: nat) returns (op: Option<Op>)
      requires t < TYPES
      modifies `incoming
      ensures op.Some? <==> ParseArgs(t, old(incoming)).Some?
      ensures op.Some? ==> (op.value, incoming) == ParseArgs(t, old(incoming)).value
      ensures op.None? ==> incoming == []
    {
      hide Decode, Assemble;
      ghost var s := incoming;
      var args := new byte[StructSize(t)];
      var got := SafeRead(args, 0, StructSize(t));
      if !got {
        return None;
      }
      ghost var raw, rest := args[..], incoming;
      assert raw == s[..StructSize(t)];
      var path := ReadArray(args, 0);
      if path.None? {
        return None;
      }
      var data := Some([]);
      ghost var mid, last := args[..], incoming;
      if t == 1 {
        data := ReadArray(args, LENGTH_AT);
        if data.None? {
          return None;
        }
        CountsDoNotMatter(t, mid, LENGTH_AT, last[..WORD], path.value, data.value);
      }
      CountsDoNotMatter(t, raw, 0, rest[..WORD], path.value, data.value);
      return Some(Assemble(t, args[..], path.value, data.value));
    }

    /** The reader of a whole request. Its result only tells whether a type could be read; what comes of
        the arguments is not looked at. */
    method ReadOperation() returns (ok: bool, op: Option<Op>)
      modifies `incoming
      ensures ok <==> !Parse(old(incoming)).Ended?
      ensures op.Some? <==> Parse(old(incoming)).Got?
      ensures op.Some? ==> op.value == Parse(old(incoming)).op
      ensures incoming == var p := Parse(old(incoming)); if p.Got? || p.Unknown? then p.rest else []
    {
      hide Decode, ParseArgs;
      ghost var s := incoming;
      var kind := new byte[TYPE_SIZE];
      var got := SafeRead(kind, 0, TYPE_SIZE);
      if !got {
        return false, None;
      }
      assert kind[..] == s[..TYPE_SIZE];
      var t := Decode(kind[..]);
      if t < TYPES {
        op := ReadArgs(t);
      } else {
        op := None;
      }
      ok := true;
    }

    method WriteArray(s: seq<byte>)
      modifies `outgoing
      ensures outgoing == old(outgoing) + ArrayBytes(s)
    {
      hide Encode;
      SafeWrite(EncodeWord(|s|));
      if |s| != 0 {
        SafeWrite(s);
      }
    }

    /** The writer of a whole request: however short the single writes are, exactly the request's bytes
        go out. */
    method WriteOperation(op: Op, path: nat, data: nat)
      modifies `outgoing
      ensures outgoing == old(outgoing) + OpBytes(op, path, data)
    {
      hide Encode, EncodeWord, StructBytes, ArrayBytes;
      SafeWrite(Encode(op.Type(), TYPE_SIZE));
      SafeWrite(StructBytes(op, path, data));
      WriteArray(op.path);
      if op.Write? {
        WriteArray(op.data);
      }
    }

    /** Requests one after the other. */
    method WriteAll(ms: seq<Message>)
      modifies `outgoing
      ensures outgoing == old(outgoing) + MessageBytes(ms)
    {
      hide OpBytes;
      var i := 0;
      while i < |ms|
        invariant i <= |ms| && outgoing == old(outgoing) + MessageBytes(ms[..i])
      {
        MessageSnoc(ms[..i], ms[i]);
        assert ms[..i + 1] == ms[..i] + [ms[i]];
        WriteOperation(ms[i].op, ms[i].path, ms[i].data);
        i := i + 1;
      }
      assert ms[..i] == ms;
    }

    /** The serving loop's reads, up to the end of the stream. */
    method ReadAll() returns (ops: seq<Op>)
      modifies `incoming
      ensures ops == ParseAll(old(incoming))
    {
      hide Parse;
      NoMessage();
      ops := [];
      var more := true;
      while more
        invariant ParseAll(old(incoming)) == ops + if more then ParseAll(incoming) else []
        decreases |incoming|, more
      {
        ghost var s, before := incoming, ops;
        var op;
        more, op := ReadOperation();
        if op.Some? {
          ops := ops + [op.value];
          assert before + ([op.value] + ParseAll(incoming)) == ops + ParseAll(incoming);
        }
      }
    }
  }

  /** A list of requests that one end writes and the other end reads, both in pieces of any sizes, arrives
      as that list. */
  method Carry(client: Connection, server: Connection, ms: seq<Message>) returns (ops: seq<Op>)
    requires client != server && client.outgoing == []
    requires forall i :: 0 <= i < |ms| ==> ms[i].op.Ok()
    modifies client, server
    ensures ops == Ops(ms)
  {
    hide MessageBytes, ParseAll, Ops;
    StreamRoundTrip(ms);
    client.WriteAll(ms);
    server.incoming := client.outgoing;
    assert [] + MessageBytes(ms) == MessageBytes(ms);
    ops := server.ReadAll();
  }

  lemma {:induction false} MessageSnoc(ms: seq<Message>, m: Message)
    ensures MessageBytes(ms + [m]) == MessageBytes(ms) + OpBytes(m.op, m.path, m.data)
  {
    hide OpBytes;
    if ms == [] {
      assert [] + [m] == [m] && [m][1..] == [];
    } else {
      assert (ms + [m])[1..] == ms[1..] + [m];
      MessageSnoc(ms[1..], m);
    }
  }

  lemma PatchNone(m: seq<byte>, at: nat)
    requires at <= |m|
    ensures forall s: seq<byte> :: Patch(m, at, s[..0]) == m
  {
  }

  lemma PatchMore(m: seq<byte>, at: nat, s: seq<byte>, ready: nat, k: nat)
    requires ready + k <= |s| && at + ready + k <= |m|
    ensures Patch(Patch(m, at, s[..ready]), at + ready, s[ready..][..k]) == Patch(m, at, s[..ready + k])
  {
    PatchPatch(m, at, s[..ready], s[ready..][..k]);
    assert s[..ready] + s[ready..][..k] == s[..ready + k];
  }

  /** The struct's own copies of the counts are overwritten by the counts sent in front of the arrays. */
  lemma CountsDoNotMatter(t: nat, args: seq<byte>, at: nat, count: seq<byte>, path: seq<byte>, data: seq<byte>)
    requires |args| == StructSize(t) && |count| == WORD
    requires at == 0 || (t == 1 && at == LENGTH_AT)
    ensures Assemble(t, Patch(args, at, count), path, data) == Assemble(t, args, path, data)
  {
    hide Decode;
    if t <= 1 {
      PatchDisjoint(args, at, count, OFFSET_AT, OFFSET_AT + WORD);
    }
    if t == 0 {
      PatchDisjoint(args, at, count, LENGTH_AT, LENGTH_AT + WORD);
    }
  }
}
