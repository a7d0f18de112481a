/** The character device: one message in, the records found out again in reads of any length. */
module CharDevice {
  import opened Bytes
  import opened Namespace
  import opened PhoneDirectory

  const CAP := 1024   // USER_BUF_CAP
  const ADD: byte := 1
  const DELETE: byte := 2
  const FIND: byte := 3

  /** The argument bytes behind an operation byte. */
  function Need(op: byte): (n: nat)
    ensures 0 < n < CAP
  {
    if op == ADD then RECORD_SIZE else NAME_LEN
  }

  /** A message as the client writes it: an operation byte and its argument, nothing else. */
  predicate WholeMessage(m: seq<byte>) { m != [] && |m| == Need(m[0]) + 1 }

  /** A buffer that does not end inside its first message. */
  predicate Complete(m: seq<byte>) { m == [] || Need(m[0]) + 1 <= |m| }

  /** The surname of a delete or find message, once its last byte is cleared. */
  function Target(m: seq<byte>): seq<byte>
    requires WholeMessage(m) && m[0] != ADD
  {
    CString(m[1..NAME_LEN] + [0])
  }

  /** What a message adds to the history of the directory. */
  function EventsOf(m: seq<byte>): seq<Event>
    requires WholeMessage(m)
  {
    if m[0] == ADD then [Add(m[1..])] else if m[0] == DELETE then [Delete(Target(m))] else []
  }

  /** What a message finds after a history. */
  function FoundBy(history: seq<Event>, m: seq<byte>): seq<Record>
    requires WholeMessage(m)
  {
    if m[0] == FIND then Since(history, Target(m)) else []
  }

  /** Records one behind the other. */
  function Flat(rs: seq<Record>): (s: seq<byte>)
    ensures |s| == |rs| * RECORD_SIZE
  {
    if rs == [] then [] else rs[0] + Flat(rs[1..])
  }

  lemma {:induction false} FlatConcat(a: seq<Record>, b: seq<Record>)
    ensures Flat(a + b) == Flat(a) + Flat(b)
  {
    if a == [] {
      assert a + b == b;
    } else {
      FlatConcat(a[1..], b);
      assert (a + b)[1..] == a[1..] + b;
    }
  }

  /** An open file of the device. The ghost fields hold all records found for it, in the order of the
      requests, and all bytes read from it. */
  class UserHandle {
    const inputBuf: array<byte>
    var inputOffset: nat
    const outputBuf: array<byte>
    var outputOffset: nat
    var pending: seq<Record>
    const directory: Directory
    ghost var found: seq<Record>
    ghost var returned: seq<byte>

    ghost predicate Sound()
      reads this, inputBuf, outputBuf, directory
    {
      && inputBuf.Length == CAP && outputBuf.Length == CAP && inputBuf != outputBuf
      && inputOffset <= CAP && outputOffset <= CAP && directory.Valid()
    }

    /** The bytes still to be read. */
    ghost function Stream(): seq<byte>
      requires Sound()
      reads this, inputBuf, outputBuf, directory
    {
      outputBuf[..outputOffset] + Flat(pending)
    }

    /** Nothing is lost, doubled or reordered: what was read and what is still to be read are the records
        found, in the order of the requests. */
    ghost predicate Valid()
      reads this, inputBuf, outputBuf, directory
    {
      Sound() && returned + Stream() == Flat(found)
    }

    ghost function Input(): seq<byte>
      requires Sound()
      reads this, inputBuf, outputBuf, directory
    {
      inputBuf[..inputOffset]
    }

    constructor (directory: Directory)
      requires directory.Valid()
      ensures Valid() && this.directory == directory && found == [] && returned == [] && Input() == []
      ensures fresh(inputBuf) && fresh(outputBuf)
    {
      inputBuf, outputBuf := new byte[CAP](_ => 0), new byte[CAP](_ => 0);
      inputOffset, outputOffset, pending := 0, 0, [];
      this.directory := directory;
      found, returned := [], [];
    }

    /** A find request: the matches join the end of the pending list. */
    method Search(surname: seq<byte>)
      requires Valid() && 0 !in surname
      modifies `pending, `found
      ensures Valid() && found == old(found) + Since(directory.history, surname)
    {
      hide Since, Flat, Directory.Valid;
      var matches := directory.Find(surname);
      FlatConcat(pending, matches);
      FlatConcat(found, matches);
      ghost var out := outputBuf[..outputOffset];
      assert returned + (out + Flat(pending)) + Flat(matches) == returned + (out + Flat(pending + matches));
      pending := pending + matches;
      found := found + matches;
    }

    /** process_operation on the len bytes of input at l. More than one message is left alone: the test
        for enough bytes has its sides exchanged. */
    method ProcessOperation(l: nat, len: nat) returns (n: nat)
      requires Valid() && 0 < len && l + len <= CAP && Need(inputBuf[l]) + 1 <= len
      modifies `pending, `found, inputBuf, directory
      ensures Valid()
      ensures n == if WholeMessage(old(inputBuf[l..l + len])) then len else 0
      ensures if n == 0 then unchanged(inputBuf) && unchanged(directory) && unchanged(this) else
                && directory.history == old(directory.history) + EventsOf(old(inputBuf[l..l + len]))
                && found == old(found) + FoundBy(old(directory.history), old(inputBuf[l..l + len]))
    {
      hide Target, Since, CString, Flat, Directory.Valid;
      ghost var m, out := inputBuf[l..l + len], outputBuf[..outputOffset];
      var op := inputBuf[l];
      var needBytes := if op == ADD then RECORD_SIZE else NAME_LEN;
      if needBytes + 1 < len {
        return 0;
      }
      if op == ADD {
        assert inputBuf[l + 1..l + 1 + RECORD_SIZE] == m[1..];
        directory.AddRecord(inputBuf[l + 1..l + 1 + RECORD_SIZE]);
      } else if op == DELETE || op == FIND {
        inputBuf[l + NAME_LEN] := 0;
        assert outputBuf[..outputOffset] == out;
        assert inputBuf[l + 1..l + 1 + NAME_LEN] == m[1..NAME_LEN] + [0];
        var surname := CString(inputBuf[l + 1..l + 1 + NAME_LEN]);
        CStringEnds(inputBuf[l + 1..l + 1 + NAME_LEN]);
        TargetIs(m);
        if op == DELETE {
          directory.Del(surname);
        } else {
          Search(surname);
        }
      }
      return needBytes + 1;
    }

    /** handle_process_input_buffers */
    method HandleProcessInput()
      requires Valid() && Complete(Input())
      modifies `pending, `found, `inputOffset, inputBuf, directory
      ensures Valid()
      ensures if WholeMessage(old(Input())) then
                && Input() == []
                && directory.history == old(directory.history) + EventsOf(old(Input()))
                && found == old(found) + FoundBy(old(directory.history), old(Input()))
              else Input() == old(Input()) && unchanged(directory) && found == old(found) && Stream() == old(Stream())
    {
      hide EventsOf, FoundBy, Flat, Directory.Valid;
      var l, r := 0, inputOffset;
      assert inputBuf[0..r] == inputBuf[..r];
      while l < r
        invariant Valid() && inputOffset == old(inputOffset) && (l == 0 || l == r)
        invariant if l == 0 then unchanged(inputBuf) && unchanged(directory) && unchanged(this) else
                    && WholeMessage(old(Input()))
                    && directory.history == old(directory.history) + EventsOf(old(Input()))
                    && found == old(found) + FoundBy(old(directory.history), old(Input()))
        decreases r - l
      {
        assert inputBuf[l..l + (r - l)] == old(Input());
        var n := ProcessOperation(l, r - l);
        if n == 0 {
          break;
        }
        l := l + n;
      }
      Compact(l);
    }

    /** The input that is left moves to the front of its buffer. */
    method Compact(l: nat)
      requires Sound() && l <= inputOffset
      modifies `inputOffset, inputBuf
      ensures Sound() && Input() == old(Input()[l..]) && Stream() == old(Stream())
    {
      hide Flat;
      var r := inputOffset;
      ghost var rest, out := inputBuf[l..r], outputBuf[..outputOffset];
      assert inputBuf[..r][l..] == rest;
      if l < r {
        forall i | 0 <= i < r - l {
          inputBuf[i] := inputBuf[l + i];
        }
      }
      inputOffset := r - l;
      assert inputBuf[..inputOffset] == rest;
      assert outputBuf[..outputOffset] == out;
    }

    /** handle_process_output_buffers moves records to the buffer while they fit. */
    method HandleProcessOutput()
      requires Valid()
      modifies `pending, `outputOffset, outputBuf
      ensures Valid() && Stream() == old(Stream())
      ensures pending != [] ==> CAP - outputOffset < RECORD_SIZE
    {
      ghost var s := Stream();
      while pending != []
        invariant Valid() && Stream() == s
      {
        if CAP - outputOffset < RECORD_SIZE {
          return;
        }
        var i, record := outputOffset, pending[0];
        ghost var before := outputBuf[..i];
        forall k | 0 <= k < RECORD_SIZE {
          outputBuf[i + k] := record[k];
        }
        assert outputBuf[..i + RECORD_SIZE] == before + record;
        outputOffset := i + RECORD_SIZE;
        pending := pending[1..];
        assert Stream() == before + (record + Flat(pending));
      }
    }

    /** handle_process_buffers: the message in the input buffer, if it is one, takes effect, then the
        output buffer is filled up. */
    method HandleProcessBuffers()
      requires Valid() && Complete(Input())
      modifies `pending, `found, `inputOffset, `outputOffset, inputBuf, outputBuf, directory
      ensures Valid()
      ensures pending != [] ==> CAP - outputOffset < RECORD_SIZE
      ensures if WholeMessage(old(Input())) then
                && Input() == []
                && directory.history == old(directory.history) + EventsOf(old(Input()))
                && found == old(found) + FoundBy(old(directory.history), old(Input()))
              else Input() == old(Input()) && unchanged(directory) && found == old(found) && Stream() == old(Stream())
    {
      hide EventsOf, FoundBy, Flat, Directory.Valid;
      HandleProcessInput();
      HandleProcessOutput();
    }

    /** dev_read hands out the front of the stream. Between whole messages it returns nothing to a
        caller with room only when nothing is left. */
    method DevRead(len: nat) returns (data: seq<byte>)
      requires Valid() && Complete(Input()) && !WholeMessage(Input())
      modifies this, inputBuf, outputBuf, directory
      ensures Valid() && unchanged(directory) && found == old(found)
      ensures |data| <= len && data + Stream() == old(Stream()) && returned == old(returned) + data
      ensures 0 < len && data == [] ==> Stream() == []
      ensures Input() == old(Input())
    {
      hide EventsOf, FoundBy, Flat, Directory.Valid;
      HandleProcessBuffers();
      var remaining := outputOffset;
      if remaining == 0 {
        return [];
      }
      var copied := if len < remaining then len else remaining;
      data := Take(copied);
      Regroup(returned, data, Stream());
      returned := returned + data;
    }

    /** The first bytes of the output buffer leave it and the others move to its front. */
    method Take(copied: nat) returns (data: seq<byte>)
      requires Sound() && copied <= outputOffset
      modifies `outputOffset, outputBuf
      ensures Sound() && |data| == copied && data + Stream() == old(Stream())
      ensures outputOffset == old(outputOffset) - copied
    {
      hide Flat, Directory.Valid;
      var remaining := outputOffset;
      data := outputBuf[..copied];
      ghost var rest := outputBuf[copied..remaining];
      assert outputBuf[..remaining] == data + rest;
      outputOffset := remaining - copied;
      if copied != remaining {
        forall i | 0 <= i < remaining - copied {
          outputBuf[i] := outputBuf[copied + i];
        }
      }
      assert outputBuf[..outputOffset] == rest;
      Regroup(data, rest, Flat(pending));
    }

    /** dev_write of one whole message into an empty input buffer: the message takes effect at once,
        and what it finds joins the end of the stream. */
    method DevWrite(data: seq<byte>) returns (r: int)
      requires Valid() && Input() == [] && WholeMessage(data)
      modifies this, inputBuf, outputBuf, directory
      ensures Valid() && Input() == [] && r == |data|
      ensures directory.history == old(directory.history) + EventsOf(data)
      ensures found == old(found) + FoundBy(old(directory.history), data)
      ensures returned == old(returned)
    {
      hide EventsOf, FoundBy, Target;
      var spaceRemaining := CAP - inputOffset;
      var copied := if |data| < spaceRemaining then |data| else spaceRemaining;
      forall i | 0 <= i < copied {
        inputBuf[inputOffset + i] := data[i];
      }
      inputOffset := inputOffset + copied;
      assert Input() == data;
      HandleProcessBuffers();
      return copied;
    }
  }

  lemma Regroup(a: seq<byte>, b: seq<byte>, c: seq<byte>)
    ensures a + b + c == a + (b + c)
  {
  }

  lemma TargetIs(m: seq<byte>)
    requires WholeMessage(m) && m[0] != ADD
    ensures Target(m) == CString(m[1..NAME_LEN] + [0])
  {
  }

  // ---- The client ----

  /** read_quant: one record, or nothing when nothing is left. Then ok is false and len still whole, so
      that the client's complaint about half a record is never raised. */
  method ReadQuant(handle: UserHandle) returns (ok: bool, data: seq<byte>)
    requires handle.Valid() && handle.Input() == [] && (handle.Stream() == [] || RECORD_SIZE <= |handle.Stream()|)
    modifies handle, handle.inputBuf, handle.outputBuf, handle.directory
    ensures handle.Valid() && handle.Input() == [] && unchanged(handle.directory) && handle.found == old(handle.found)
    ensures data + handle.Stream() == old(handle.Stream())
    ensures ok <==> old(handle.Stream()) != []
    ensures |data| == if ok then RECORD_SIZE else 0
  {
    hide Flat, Directory.Valid, Since;
    data := [];
    var more := true;
    while more && |data| < RECORD_SIZE
      invariant handle.Valid() && handle.Input() == []
      invariant unchanged(handle.directory) && handle.found == old(handle.found)
      invariant |data| <= RECORD_SIZE && data + handle.Stream() == old(handle.Stream())
      invariant !more ==> handle.Stream() == [] && |data| < RECORD_SIZE
      decreases RECORD_SIZE - |data|, more
    {
      var done := handle.DevRead(RECORD_SIZE - |data|);
      assert data + (done + handle.Stream()) == (data + done) + handle.Stream();
      if done == [] {
        more := false;
      }
      data := data + done;
    }
    ok := |data| == RECORD_SIZE;
  }

  /** A field of n bytes that holds a string, then zeroes. */
  function Padded(s: seq<byte>, n: nat): (r: seq<byte>)
    requires |s| <= n
    ensures |r| == n && r[..|s|] == s && forall i :: |s| <= i < n ==> r[i] == 0
  {
    s + seq(n - |s|, _ => 0)
  }

  /** surname_to_op_string, for the operation byte op: it throws for a surname of 128 bytes or more. */
  method SurnameMessage(op: byte, surname: seq<byte>) returns (ok: bool, data: seq<byte>)
    ensures ok <==> |surname| < 128
    ensures ok ==> |data| == 129 && data[0] == op && data[1..1 + |surname|] == surname
    ensures ok ==> forall i :: 1 + |surname| <= i < 129 ==> data[i] == 0
  {
    if |surname| + 1 > NAME_LEN {
      return false, [];
    }
    data := [op] + Padded(surname, NAME_LEN);
    assert data[1..] == Padded(surname, NAME_LEN);
    assert data[1..1 + |surname|] == data[1..][..|surname|];
    return true, data;
  }

  /** A search on a handle with nothing left to read prints the live records of that surname, the oldest
      first, whole and once each. */
  method PerformSearch(handle: UserHandle, surname: seq<byte>) returns (ok: bool, printed: seq<Record>)
    requires handle.Valid() && handle.Input() == [] && handle.Stream() == [] && 0 !in surname
    modifies handle, handle.inputBuf, handle.outputBuf, handle.directory
    ensures ok <==> |surname| < 128
    ensures printed == if ok then Since(old(handle.directory.history), surname) else []
    ensures ok ==> forall r: Record :: r in printed <==>
              r in old(handle.directory.list) && r[..|surname|] == surname && r[|surname|] == 0
    ensures handle.Valid() && handle.Input() == [] && handle.Stream() == []
    ensures handle.directory.history == old(handle.directory.history)
  {
    hide Directory.Valid, Since, Target, Flat, WholeMessage;
    printed := [];
    var data;
    ok, data := SurnameMessage(3, surname);
    if !ok {
      return;
    }
    MessageTarget(3, surname, data);
    SinceBytes(handle.directory, surname);
    var r := handle.DevWrite(data);
    ghost var m := Since(old(handle.directory.history), surname);
    StreamOfFound(handle, old(handle.returned), old(handle.found), m);
    printed := PrintAll(handle, m);
  }

  /** The printing loop: record after record until nothing is left. */
  method PrintAll(handle: UserHandle, ghost records: seq<Record>) returns (printed: seq<Record>)
    requires handle.Valid() && handle.Input() == [] && handle.Stream() == Flat(records)
    modifies handle, handle.inputBuf, handle.outputBuf, handle.directory
    ensures printed == records
    ensures handle.Valid() && handle.Input() == [] && handle.Stream() == [] && unchanged(handle.directory)
  {
    hide Directory.Valid, Flat;
    printed := [];
    ghost var left := records;
    FlatEmpty();
    var more := true;
    while more
      invariant handle.Valid() && handle.Input() == [] && handle.Stream() == Flat(left) && records == printed + left
      invariant unchanged(handle.directory)
      invariant !more ==> left == []
      decreases |left|, more
    {
      var record;
      FlatHead(left);
      more, record := ReadQuant(handle);
      if more {
        printed, left := printed + [record], left[1..];
      }
    }
  }

  lemma SinceBytes(directory: Directory, surname: seq<byte>)
    requires directory.Valid() && 0 !in surname && |surname| < 128
    ensures forall r: Record :: r in Since(directory.history, surname) <==>
              r in directory.list && r[..|surname|] == surname && r[|surname|] == 0
  {
    hide Since, Live, Matching, Without, Reversed;
    LiveMatches(directory.history, surname);
    forall r: Record
      ensures r in Since(directory.history, surname) <==>
              r in directory.list && r[..|surname|] == surname && r[|surname|] == 0
    {
      FoundBytes(directory.list, directory.history, surname, r);
    }
  }

  /** A deletion: afterwards no record of that surname is left, and all of any other surname are. */
  method PerformDelete(handle: UserHandle, surname: seq<byte>) returns (ok: bool)
    requires handle.Valid() && handle.Input() == [] && 0 !in surname
    modifies handle, handle.inputBuf, handle.outputBuf, handle.directory
    ensures ok <==> |surname| < 128
    ensures ok ==> Since(handle.directory.history, surname) == []
    ensures forall s: seq<byte> :: !ok || s != surname ==>
              Since(handle.directory.history, s) == Since(old(handle.directory.history), s)
    ensures handle.Valid() && handle.Input() == [] && handle.Stream() == old(handle.Stream())
  {
    hide Directory.Valid, Since, Target, Flat, WholeMessage;
    var data;
    ok, data := SurnameMessage(2, surname);
    if !ok {
      return;
    }
    MessageTarget(2, surname, data);
    ghost var before, stream := handle.directory.history, handle.Stream();
    var r := handle.DevWrite(data);
    SameStream(handle, stream, old(handle.found));
    forall s: seq<byte>
      ensures Since(handle.directory.history, s) == if s == surname then [] else Since(before, s)
    {
      SinceDelete(before, surname, s);
    }
  }

  /** An addition: the record, as it lies in memory, is the last match of its surname, and any other surname
      keeps its matches. */
  method PerformAdd(handle: UserHandle, surname: seq<byte>, name: seq<byte>, phone: seq<byte>, email: seq<byte>,
                    age: nat) returns (ok: bool, record: Record)
    requires handle.Valid() && handle.Input() == [] && 0 !in surname
    modifies handle, handle.inputBuf, handle.outputBuf, handle.directory
    ensures ok <==> |surname| < 128 && |name| < 128 && |email| < 64 && |phone| < 64
    ensures ok ==>
              && record[..128] == Padded(surname, 128) && record[128..256] == Padded(name, 128)
              && record[256..320] == Padded(email, 64) && record[320..384] == Padded(phone, 64)
              && record[384..388] == Encode(age, 4)
    ensures ok ==> Since(handle.directory.history, surname) == Since(old(handle.directory.history), surname) + [record]
    ensures forall s: seq<byte> :: !ok || s != surname ==>
              Since(handle.directory.history, s) == Since(old(handle.directory.history), s)
    ensures handle.Valid() && handle.Input() == [] && handle.Stream() == old(handle.Stream())
  {
    hide Directory.Valid, Since, Flat, WholeMessage, Encode, Padded;
    record := seq(RECORD_SIZE, _ => 0);
    if |surname| + 1 > NAME_LEN || |name| + 1 > NAME_LEN || |email| + 1 > EMAIL_LEN || |phone| + 1 > PHONE_LEN {
      return false, record;
    }
    record := Padded(surname, NAME_LEN) + Padded(name, NAME_LEN) + Padded(email, EMAIL_LEN)
      + Padded(phone, PHONE_LEN) + Encode(age, 4);
    FieldsOf(surname, name, email, phone, Encode(age, 4), record);
    var data := [1] + record;
    assert data[1..] == record;
    AddMessage(data);
    ghost var before, stream := handle.directory.history, handle.Stream();
    var r := handle.DevWrite(data);
    SameStream(handle, stream, old(handle.found));
    forall s: seq<byte>
      ensures Since(handle.directory.history, s) == Since(before, s) + if s == surname then [record] else []
    {
      AddedSince(before, record, surname, s);
    }
    return true, record;
  }

  lemma FieldsOf(surname: seq<byte>, name: seq<byte>, email: seq<byte>, phone: seq<byte>, age: seq<byte>, r: Record)
    requires |surname| < 128 && |name| < 128 && |email| < 64 && |phone| < 64 && |age| == 4
    requires r == Padded(surname, 128) + Padded(name, 128) + Padded(email, 64) + Padded(phone, 64) + age
    ensures r[..128] == Padded(surname, 128) && r[128..256] == Padded(name, 128)
    ensures r[256..320] == Padded(email, 64) && r[320..384] == Padded(phone, 64) && r[384..388] == age
    ensures r[..|surname|] == surname && r[|surname|] == 0
    ensures r[127] == 0 && r[255] == 0 && r[319] == 0 && r[383] == 0
  {
    hide Padded;
    assert r[..|surname|] == Padded(surname, 128)[..|surname|];
    assert r[|surname|] == Padded(surname, 128)[|surname|];
    assert r[255] == Padded(name, 128)[127] && r[319] == Padded(email, 64)[63] && r[383] == Padded(phone, 64)[63];
  }

  lemma AddMessage(data: seq<byte>)
    requires |data| == 389 && data[0] == 1
    ensures WholeMessage(data) && EventsOf(data) == [Add(data[1..])]
    ensures forall history :: FoundBy(history, data) == []
  {
  }

  lemma AddedSince(history: seq<Event>, r: Record, surname: seq<byte>, s: seq<byte>)
    requires 0 !in surname && |surname| < 128 && r[..|surname|] == surname && r[|surname|] == 0
    requires r[127] == 0 && r[255] == 0 && r[319] == 0 && r[383] == 0
    ensures Since(history + [Add(r)], s) == Since(history, s) + if s == surname then [r] else []
  {
    hide Sealed, Surname;
    assert (history + [Add(r)])[..|history|] == history;
    assert Sealed(r) == r;
    Bears(r, surname);
  }

  /** Nothing found, nothing to read: what was in front of the reader still is. */
  lemma SameStream(handle: UserHandle, stream: seq<byte>, found: seq<Record>)
    requires handle.Valid() && handle.found == found && handle.returned + stream == Flat(found)
    ensures handle.Stream() == stream
  {
    hide Flat, Directory.Valid;
    assert (handle.returned + handle.Stream())[|handle.returned|..] == (handle.returned + stream)[|handle.returned|..];
  }

  lemma FlatEmpty()
    ensures Flat([]) == []
  {
  }

  lemma FlatHead(rs: seq<Record>)
    ensures Flat(rs) == [] <==> rs == []
    ensures rs != [] ==> Flat(rs)[..RECORD_SIZE] == rs[0] && Flat(rs)[RECORD_SIZE..] == Flat(rs[1..])
  {
  }

  lemma StreamOfFound(handle: UserHandle, returned: seq<byte>, before: seq<Record>, m: seq<Record>)
    requires handle.Valid() && handle.returned == returned && handle.found == before + m && returned == Flat(before)
    ensures handle.Stream() == Flat(m)
  {
    hide Flat, Directory.Valid;
    FlatConcat(before, m);
    assert (returned + handle.Stream())[|returned|..] == (returned + Flat(m))[|returned|..];
  }

  lemma {:induction false} CStringPadded(s: seq<byte>, zeroes: seq<byte>)
    requires 0 !in s && zeroes != [] && zeroes[0] == 0
    ensures CString(s + zeroes) == s
  {
    if s != [] {
      assert (s + zeroes)[1..] == s[1..] + zeroes;
      CStringPadded(s[1..], zeroes);
    }
  }

  /** What a delete or find message of a surname is about. */
  lemma MessageTarget(op: byte, surname: seq<byte>, data: seq<byte>)
    requires op == 2 || op == 3
    requires |surname| < 128 && 0 !in surname && |data| == 129 && data[0] == op
    requires data[1..1 + |surname|] == surname && forall i :: 1 + |surname| <= i < 129 ==> data[i] == 0
    ensures WholeMessage(data) && Target(data) == surname
    ensures EventsOf(data) == if op == 2 then [Delete(surname)] else []
    ensures forall history :: FoundBy(history, data) == if op == 3 then Since(history, surname) else []
  {
    hide CString, Since;
    var zeroes := data[1 + |surname|..128] + [0];
    CStringPadded(surname, zeroes);
    assert data[1..NAME_LEN] + [0] == surname + zeroes;
  }
}
