/** Replies: an empty error string and a payload, or one error string that is not empty. */
module Replies {
  import opened Bytes
  import opened Layout
  import opened Namespace
  import opened Wire

  datatype Payload =
    | Nothing
    | Data(bytes: seq<byte>)
    | Info(size: nat, blocks: seq<nat>)
    | Listing(items: seq<Item>)

  datatype Reply = Done(payload: Payload) | Failed(message: seq<byte>)

  /** The reply can be an answer to op, and its numbers fit a size_t. */
  ghost predicate Answers(op: Op, r: Reply) {
    match r
    case Failed(message) => message != [] && |message| + 1 < LIMIT
    case Done(Nothing) => op.Write? || op.Create? || op.Remove?
    case Done(Data(bytes)) => op.Read? && |bytes| < LIMIT
    case Done(Info(size, blocks)) =>
      op.Stat? && size < LIMIT && |blocks| < LIMIT && forall i :: 0 <= i < |blocks| ==> blocks[i] < LIMIT
    case Done(Listing(items)) => op.ReadDir? && |items| < LIMIT && AllOk(items)
  }

  /** The String writer: the struct with length and pointer, then the array. */
  function StringBytes(s: seq<byte>, pointer: nat): seq<byte> {
    EncodeWord(|s|) + EncodeWord(pointer) + ArrayBytes(s)
  }

  function Words(ws: seq<nat>): (s: seq<byte>)
    ensures |s| == |ws| * WORD
  {
    if ws == [] then [] else EncodeWord(ws[0]) + Words(ws[1..])
  }

  ghost function PayloadBytes(payload: Payload, pointer: nat): seq<byte>
    requires payload.Listing? ==> AllOk(payload.items)
  {
    match payload
    case Nothing => []
    case Data(bytes) => StringBytes(bytes, pointer)
    case Info(size, blocks) =>
      EncodeWord(size) + EncodeWord(|blocks|) + EncodeWord(pointer) + EncodeWord(|blocks|) + Words(blocks)
    case Listing(items) =>
      EncodeWord(|items|) + EncodeWord(pointer) + EncodeWord(|items|) + AllBytes(items)
  }

  /** What a reply puts on the wire. */
  ghost function ReplyBytes(r: Reply, error: nat, payload: nat): seq<byte>
    requires r.Done? && r.payload.Listing? ==> AllOk(r.payload.items)
  {
    match r
    case Done(p) => StringBytes([0], error) + PayloadBytes(p, payload)
    case Failed(message) => StringBytes(message + [0], error)
  }

  // ---- The client's side ----

  function TakeString(s: seq<byte>): Option<(seq<byte>, seq<byte>)> {
    if |s| < 2 * WORD then None else TakeArray(s[2 * WORD..])
  }

  /** An array of cells of unit bytes each, behind a struct of head bytes. */
  function TakeCells(s: seq<byte>, head: nat, unit: nat): Option<(seq<byte>, seq<byte>)> {
    if |s| < head + WORD then None else
      var n := Decode(s[head..head + WORD]) * unit;
      if |s| - head - WORD < n then None
      else Some((s[head + WORD..head + WORD + n], s[head + WORD + n..]))
  }

  function ParseWords(s: seq<byte>): seq<nat> {
    if |s| < WORD then [] else [Decode(s[..WORD])] + ParseWords(s[WORD..])
  }

  function TakePayload(op: Op, s: seq<byte>): Option<(Payload, seq<byte>)> {
    match op
    case Read(_, _, _) =>
      var data := TakeString(s);
      if data.None? then None else Some((Data(data.value.0), data.value.1))
    case Stat(_) =>
      var blocks := TakeCells(s, 3 * WORD, WORD);
      if blocks.None? then None else Some((Info(Decode(s[..WORD]), ParseWords(blocks.value.0)), blocks.value.1))
    case ReadDir(_) =>
      var items := TakeCells(s, 2 * WORD, ITEM_SIZE);
      if items.None? then None else Some((Listing(Items(items.value.0)), items.value.1))
    case _ => Some((Nothing, s))
  }

  /** read_error, then the payload that belongs to the request. */
  function ParseReply(op: Op, s: seq<byte>): Option<(Reply, seq<byte>)> {
    var error := TakeString(s);
    if error.None? then None
    else if |error.value.0| != 1 then
      Some((Failed(if error.value.0 == [] then [] else error.value.0[..|error.value.0| - 1]), error.value.1))
    else
      var payload := TakePayload(op, error.value.1);
      if payload.None? then None else Some((Done(payload.value.0), payload.value.1))
  }

  /** The replies a client gets that sent ops one after the other; it stops at an error. */
  function ParseReplies(ops: seq<Op>, s: seq<byte>): seq<Reply> {
    if ops == [] then [] else
      var first := ParseReply(ops[0], s);
      if first.None? then []
      else if first.value.0.Failed? then [first.value.0]
      else [first.value.0] + ParseReplies(ops[1..], first.value.1)
  }

  lemma TakeStringBytes(s: seq<byte>, pointer: nat, rest: seq<byte>)
    requires |s| < LIMIT
    ensures TakeString(StringBytes(s, pointer) + rest) == Some((s, rest))
  {
    hide EncodeWord, ArrayBytes, TakeArray;
    TakeArrayBytes(s, rest);
    assert (StringBytes(s, pointer) + rest)[2 * WORD..] == ArrayBytes(s) + rest;
  }

  lemma {:induction false} ParseWordsOf(ws: seq<nat>)
    requires forall i :: 0 <= i < |ws| ==> ws[i] < LIMIT
    ensures ParseWords(Words(ws)) == ws
  {
    hide EncodeWord, Decode;
    if ws != [] {
      WordRoundTrip(ws[0]);
      ParseWordsOf(ws[1..]);
      assert Words(ws)[..WORD] == EncodeWord(ws[0]) && Words(ws)[WORD..] == Words(ws[1..]);
    }
  }

  lemma TakeCellsBytes(head: seq<byte>, n: nat, unit: nat, cells: seq<byte>, rest: seq<byte>)
    requires n < LIMIT && |cells| == n * unit
    ensures TakeCells(head + EncodeWord(n) + cells + rest, |head|, unit) == Some((cells, rest))
  {
    hide EncodeWord, Decode;
    WordRoundTrip(n);
    var s, h := head + EncodeWord(n) + cells + rest, |head|;
    assert s[h..h + WORD] == EncodeWord(n);
    assert s[h + WORD..h + WORD + |cells|] == cells && s[h + WORD + |cells|..] == rest;
  }

  lemma TakePayloadBytes(op: Op, payload: Payload, pointer: nat, rest: seq<byte>)
    requires Answers(op, Done(payload))
    ensures TakePayload(op, PayloadBytes(payload, pointer) + rest) == Some((payload, rest))
  {
    hide EncodeWord, Decode, StringBytes, TakeString, TakeCells, Words, ParseWords, AllBytes, Items;
    var s := PayloadBytes(payload, pointer) + rest;
    match payload
    case Nothing => assert s == rest;
    case Data(bytes) => TakeStringBytes(bytes, pointer, rest);
    case Info(size, blocks) =>
      var head := EncodeWord(size) + EncodeWord(|blocks|) + EncodeWord(pointer);
      TakeCellsBytes(head, |blocks|, WORD, Words(blocks), rest);
      ParseWordsOf(blocks);
      WordRoundTrip(size);
      assert s == head + EncodeWord(|blocks|) + Words(blocks) + rest;
      assert s[..WORD] == EncodeWord(size);
    case Listing(items) =>
      var head := EncodeWord(|items|) + EncodeWord(pointer);
      TakeCellsBytes(head, |items|, ITEM_SIZE, AllBytes(items), rest);
      ItemsOfBytes(items);
      assert s == head + EncodeWord(|items|) + AllBytes(items) + rest;
  }

  /** The client gets back the reply that was sent, and has then read exactly its bytes. */
  lemma ReplyRoundTrip(op: Op, r: Reply, error: nat, payload: nat, rest: seq<byte>)
    requires Answers(op, r)
    ensures ParseReply(op, ReplyBytes(r, error, payload) + rest) == Some((r, rest))
  {
    hide StringBytes, TakeString, TakePayload, PayloadBytes;
    match r
    case Failed(message) =>
      TakeStringBytes(message + [0], error, rest);
      assert (message + [0])[..|message|] == message;
    case Done(p) =>
      TakeStringBytes([0], error, PayloadBytes(p, payload) + rest);
      TakePayloadBytes(op, p, payload, rest);
      assert ReplyBytes(r, error, payload) + rest == StringBytes([0], error) + (PayloadBytes(p, payload) + rest);
  }

  /** A request with its reply and the pointers its strings happened to have. */
  datatype Exchange = Exchange(op: Op, reply: Reply, error: nat, payload: nat)

  ghost predicate Proper(es: seq<Exchange>) {
    && (forall i :: 0 <= i < |es| ==> Answers(es[i].op, es[i].reply))
    && forall i :: 0 <= i < |es| - 1 ==> es[i].reply.Done?
  }

  ghost function Sent(es: seq<Exchange>): seq<byte>
    requires Proper(es)
  {
    if es == [] then [] else ReplyBytes(es[0].reply, es[0].error, es[0].payload) + Sent(es[1..])
  }

  function Asked(es: seq<Exchange>): seq<Op> { if es == [] then [] else [es[0].op] + Asked(es[1..]) }

  function Answered(es: seq<Exchange>): seq<Reply> { if es == [] then [] else [es[0].reply] + Answered(es[1..]) }

  /** Reading a connection's replies against its requests, answered and not yet answered, gives the
      replies in the order of the requests. */
  lemma {:induction false} RepliesInOrder(es: seq<Exchange>, more: seq<Op>)
    requires Proper(es)
    ensures ParseReplies(Asked(es) + more, Sent(es)) == Answered(es)
  {
    hide ParseReply, ReplyBytes;
    var ops := Asked(es) + more;
    if es == [] {
      if ops != [] { assert ParseReply(ops[0], []).None? by { NoReply(ops[0]); } }
    } else {
      ReplyRoundTrip(es[0].op, es[0].reply, es[0].error, es[0].payload, Sent(es[1..]));
      assert ops[0] == es[0].op && ops[1..] == Asked(es[1..]) + more;
      if es[0].reply.Done? {
        RepliesInOrder(es[1..], more);
      } else {
        assert |es| == 1;
      }
    }
  }

  lemma NoReply(op: Op)
    ensures ParseReply(op, []).None?
  {
  }

  /** One exchange more, after answers that were no errors. */
  lemma {:induction false} ExchangeSnoc(es: seq<Exchange>, e: Exchange)
    requires Proper(es) && Answers(e.op, e.reply) && (es != [] ==> es[|es| - 1].reply.Done?)
    ensures Proper(es + [e])
    ensures Sent(es + [e]) == Sent(es) + ReplyBytes(e.reply, e.error, e.payload)
    ensures Asked(es + [e]) == Asked(es) + [e.op]
  {
    hide ReplyBytes, Answers;
    if es == [] {
      assert [e][1..] == [];
    } else {
      ExchangeSnoc(es[1..], e);
      assert (es + [e])[1..] == es[1..] + [e];
    }
  }
}
