/** The server: one thread for each client, one mutex, one flag for an intercepted error and one
    installed interceptor. Single steps of the threads interleave in any order. */
module Server {
  import opened Bytes
  import opened Namespace
  import opened Wire
  import opened Replies

  /** What one step of a request's handler does to the file system: it goes on, it is ready to answer,
      it calls die_fatal, or it uses a pointer that points nowhere. */
  datatype Micro<+S, +L> =
    | More(state: S, local: L)
    | Finish(state: S, payload: Payload)
    | Die(state: S, message: seq<byte>)
    | Crash

  /** The six request handlers, as one program over a file system state and their local variables: which
      steps it can take. */
  datatype Handler<!S, !L> = Handler(start: L, ghost step: (S, Op, L, Micro<S, L>) -> bool)

  /** Payloads are of the request's kind, and no error message is empty. */
  ghost predicate Behaves<S, L>(op: Op, m: Micro<S, L>) {
    match m
    case Finish(_, payload) => Answers(op, Done(payload))
    case Die(_, message) => Answers(op, Failed(message))
    case _ => true
  }

  ghost predicate WellBehaved<S(!new), L(!new)>(h: Handler<S, L>) {
    forall s, op, l, m :: h.step(s, op, l, m) ==> Behaves(op, m)
  }

  /** Where a thread stands. A request of no known type is None. */
  datatype Phase<+L> =
    | Reading                                      // in slz_NetFsOperation_read
    | Waiting(request: Option<Op>)                 // at pthread_mutex_lock
    | Locked(request: Option<Op>)                  // at error_intercepted = 0
    | Cleared(request: Option<Op>)                 // at intercept_errors(fsop_error)
    | Working(op: Op, local: L)                    // in the handler
    | Sending(bytes: seq<byte>)                    // the handler is writing its reply
    | Finished                                     // at intercept_errors(NULL)
    | Unhooked                                     // at pthread_mutex_unlock
    | Dying(message: seq<byte>, pointer: nat)      // at the entry of fsop_error
    | Reporting(bytes: seq<byte>)                  // fsop_error is writing the error
    | Leaving                                      // fsop_error is at pthread_mutex_unlock
    | Gone                                         // the thread has ended
  {
    predicate Inside() { !Reading? && !Waiting? && !Gone? }

    predicate Broken() { Dying? || Reporting? || Leaving? }
  }

  /** A thread: all bytes its client ever sends, those not yet read, those sent back. */
  datatype Thread<+L> = Thread(received: seq<byte>, inbox: seq<byte>, outbox: seq<byte>, phase: Phase<L>)

  /** One handled request: by whom, in what steps of the handler, and the reply. */
  datatype Entry<+S, +L> = Entry(tid: nat, steps: seq<Micro<S, L>>, exchange: Exchange)

  datatype System<+S, +L> = System(
    fs: S,
    mutex: Option<nat>,
    intercepted: bool,
    armed: bool,
    exited: bool,
    threads: seq<Thread<L>>,
    order: seq<(nat, Op)>,         // known requests as their threads took the mutex
    current: seq<Micro<S, L>>,     // the steps of the handler now running
    log: seq<Entry<S, L>>)         // requests in the order in which their handlers ended

  /** A new client, or a step of thread t: with the size of a transfer, the pointers of the strings it
      sends, and the step its handler takes. */
  datatype Action<+S, +L> =
    | Accept(received: seq<byte>)
    | Step(t: nat, chunk: nat, error: nat, payload: nat, micro: Micro<S, L>)

  function Chunk(n: nat, bytes: seq<byte>): (k: nat)
    requires bytes != []
    ensures 0 < k <= |bytes|
  {
    if 0 < n <= |bytes| then n else |bytes|
  }

  function Enter<S, L>(st: System<S, L>, t: nat, p: Phase<L>): System<S, L>
    requires t < |st.threads|
  {
    st.(threads := st.threads[t := st.threads[t].(phase := p)])
  }

  function Put<S, L>(st: System<S, L>, t: nat, bytes: seq<byte>, p: Phase<L>): System<S, L>
    requires t < |st.threads|
  {
    st.(threads := st.threads[t := st.threads[t].(outbox := st.threads[t].outbox + bytes, phase := p)])
  }

  /** One step in the handler, if it can take it. */
  ghost function Work<S(!new), L(!new)>(h: Handler<S, L>, st: System<S, L>, t: nat, error: nat, payload: nat,
                                        m: Micro<S, L>): System<S, L>
    requires WellBehaved(h) && t < |st.threads| && st.threads[t].phase.Working?
  {
    var op, steps := st.threads[t].phase.op, st.current + [m];
    if !h.step(st.fs, op, st.threads[t].phase.local, m) then st else
      assert Behaves(op, m);
      match m
      case More(s, l) => Enter(st.(fs := s, current := steps), t, Working(op, l))
      case Finish(s, value) =>
        var greeting := if st.intercepted then [] else StringBytes([0], error);
        var e := Entry(t, steps, Exchange(op, Done(value), error, payload));
        Enter(st.(fs := s, log := st.log + [e]), t, Sending(greeting + PayloadBytes(value, payload)))
      case Die(s, message) =>
        var e := Entry(t, steps, Exchange(op, Failed(message), error, payload));
        if st.armed then Enter(st.(fs := s, log := st.log + [e]), t, Dying(message, error))
        else st.(fs := s, exited := true)
      case Crash => st.(exited := true)
  }

  /** Reading a request and taking the mutex. */
  function Admit<S, L>(st: System<S, L>, t: nat): (nx: System<S, L>)
    requires t < |st.threads| && !st.threads[t].phase.Inside()
    ensures |nx.threads| == |st.threads| && nx.log == st.log && nx.exited == st.exited
  {
    var me := st.threads[t];
    match me.phase
    case Waiting(request) =>
      if st.mutex.Some? then st else
        Enter(st.(mutex := Some(t), order := st.order + Ticket(t, request)), t, Locked(request))
    case Gone => st
    case _ =>
      match Parse(me.inbox)
      case Got(op, rest) => st.(threads := st.threads[t := me.(inbox := rest, phase := Waiting(Some(op)))])
      case Unknown(rest) => st.(threads := st.threads[t := me.(inbox := rest, phase := Waiting(None))])
      case Ended => Enter(st, t, Gone)
      case Cut => st
  }

  /** serve_next_operation around the handler, with the mutex held. */
  function Serve<S, L>(h: Handler<S, L>, st: System<S, L>, t: nat, chunk: nat): (nx: System<S, L>)
    requires t < |st.threads|
    ensures |nx.threads| == |st.threads| && nx.log == st.log && nx.exited == st.exited
  {
    match st.threads[t].phase
    case Locked(request) => Enter(st.(intercepted := false), t, Cleared(request))
    case Cleared(request) =>
      Enter(st.(armed := true, current := []), t,
            if request.None? then Finished else Working(request.value, h.start))
    case Sending(bytes) =>
      if bytes == [] then Enter(st, t, Finished)
      else var k := Chunk(chunk, bytes); Put(st, t, bytes[..k], Sending(bytes[k..]))
    case Finished => Enter(st.(armed := false), t, Unhooked)
    case Unhooked => Enter(st.(mutex := None), t, Reading)
    case _ => st
  }

  /** fsop_error */
  function FsopError<S, L>(st: System<S, L>, t: nat, chunk: nat): (nx: System<S, L>)
    requires t < |st.threads|
    ensures |nx.threads| == |st.threads| && nx.log == st.log && nx.exited == st.exited
  {
    match st.threads[t].phase
    case Dying(message, pointer) =>
      if st.intercepted then Enter(st, t, Leaving)
      else Enter(st.(intercepted := true), t, Reporting(StringBytes(message + [0], pointer)))
    case Reporting(bytes) =>
      if bytes == [] then Enter(st, t, Leaving)
      else var k := Chunk(chunk, bytes); Put(st, t, bytes[..k], Reporting(bytes[k..]))
    case Leaving => Enter(st.(mutex := None), t, Gone)
    case _ => st
  }

  /** The next step of thread t. */
  ghost function Advance<S(!new), L(!new)>(h: Handler<S, L>, st: System<S, L>, t: nat, chunk: nat, error: nat,
                                           payload: nat, m: Micro<S, L>): System<S, L>
    requires WellBehaved(h) && t < |st.threads|
  {
    var p := st.threads[t].phase;
    if !p.Inside() then Admit(st, t)
    else if p.Working? then Work(h, st, t, error, payload, m)
    else if p.Broken() then FsopError(st, t, chunk)
    else Serve(h, st, t, chunk)
  }

  function Ticket(t: nat, request: Option<Op>): seq<(nat, Op)> {
    if request.None? then [] else [(t, request.value)]
  }

  ghost function Next<S(!new), L(!new)>(h: Handler<S, L>, st: System<S, L>, a: Action<S, L>): System<S, L>
    requires WellBehaved(h)
  {
    if st.exited then st else
      match a
      case Accept(received) => st.(threads := st.threads + [Thread(received, received, [], Reading)])
      case Step(t, chunk, error, payload, m) =>
        if t < |st.threads| then Advance(h, st, t, chunk, error, payload, m) else st
  }

  ghost function Exec<S(!new), L(!new)>(h: Handler<S, L>, st: System<S, L>, run: seq<Action<S, L>>): System<S, L>
    requires WellBehaved(h)
  {
    if run == [] then st else Next(h, Exec(h, st, run[..|run| - 1]), run[|run| - 1])
  }

  function Start<S, L>(fs: S): System<S, L> { System(fs, None, false, false, false, [], [], [], []) }

  // ---- The sequential meaning of a log ----

  /** State and locals after these steps of op's handler from state s, if it can take them and is still
      going on. */
  ghost function Iterate<S, L>(h: Handler<S, L>, s: S, op: Op, steps: seq<Micro<S, L>>): Option<(S, L)> {
    if steps == [] then Some((s, h.start)) else
      var before, m := Iterate(h, s, op, steps[..|steps| - 1]), steps[|steps| - 1];
      if before.None? || !h.step(before.value.0, op, before.value.1, m) then None
      else if m.More? then Some((m.state, m.local)) else None
  }

  /** The state after op's handler ran alone from s, if it ends with the last of these steps and replies
      r. */
  ghost function Handled<S, L>(h: Handler<S, L>, s: S, op: Op, steps: seq<Micro<S, L>>, r: Reply): Option<S> {
    if steps == [] then None else
      var before, m := Iterate(h, s, op, steps[..|steps| - 1]), steps[|steps| - 1];
      if before.None? || !h.step(before.value.0, op, before.value.1, m) then None
      else match m
        case Finish(state, payload) => if r == Done(payload) then Some(state) else None
        case Die(state, message) => if r == Failed(message) then Some(state) else None
        case _ => None
  }

  /** The state after the log's requests ran one after the other, each alone, with the log's replies. */
  ghost function Replay<S, L>(h: Handler<S, L>, s: S, log: seq<Entry<S, L>>): Option<S> {
    if log == [] then Some(s) else
      var before, e := Replay(h, s, log[..|log| - 1]), log[|log| - 1];
      if before.None? then None else Handled(h, before.value, e.exchange.op, e.steps, e.exchange.reply)
  }

  function Tickets<S, L>(log: seq<Entry<S, L>>): seq<(nat, Op)> {
    if log == [] then [] else Tickets(log[..|log| - 1]) + [(log[|log| - 1].tid, log[|log| - 1].exchange.op)]
  }

  /** The exchanges of one thread. */
  function Dialogue<S, L>(log: seq<Entry<S, L>>, t: nat): seq<Exchange> {
    if log == [] then [] else
      var e := log[|log| - 1];
      Dialogue(log[..|log| - 1], t) + if e.tid == t then [e.exchange] else []
  }

  // ---- The invariant ----

  /** The thread inside, and no other, holds the mutex. */
  ghost predicate Exclusive<S, L>(st: System<S, L>) {
    && (forall t :: 0 <= t < |st.threads| && st.threads[t].phase.Inside() ==> st.mutex == Some(t))
    && (st.mutex.Some? ==> st.mutex.value < |st.threads| && st.threads[st.mutex.value].phase.Inside())
  }

  /** While a handler runs, errors are intercepted and none has been yet. */
  ghost predicate Hooked<S, L>(st: System<S, L>) {
    forall t :: 0 <= t < |st.threads| ==>
         && (st.threads[t].phase.Cleared? ==> !st.intercepted)
         && (st.threads[t].phase.Working? || st.threads[t].phase.Dying? ==> st.armed && !st.intercepted)
  }

  /** The process ends in one way only: in the handler of the thread inside, by a step that crashes. */
  ghost predicate ExitsIn<S, L>(h: Handler<S, L>, st: System<S, L>) {
    st.exited ==>
      && st.mutex.Some? && st.mutex.value < |st.threads|
      && var p := st.threads[st.mutex.value].phase;
      && p.Working? && h.step(st.fs, p.op, p.local, Crash)
  }

  ghost function HolderPhase<S, L>(st: System<S, L>): Phase<L>
    requires Exclusive(st)
  {
    if st.mutex.None? then Gone else st.threads[st.mutex.value].phase
  }

  /** The file system is what the log makes of it, one request after the other, plus the steps that
      the request now inside has done; and the log is in the order in which the mutex was taken. */
  ghost predicate Serial<S, L>(h: Handler<S, L>, s0: S, st: System<S, L>)
    requires Exclusive(st)
  {
    var p, now := HolderPhase(st), Replay(h, s0, st.log);
    && now.Some?
    && (if p.Working? then Iterate(h, now.value, p.op, st.current) == Some((st.fs, p.local)) else st.fs == now.value)
    && st.order == Tickets(st.log) + Unlogged(st.mutex, p)
  }

  function Unlogged<L>(mutex: Option<nat>, p: Phase<L>): seq<(nat, Op)> {
    if mutex.None? then []
    else if p.Locked? || p.Cleared? then Ticket(mutex.value, p.request)
    else if p.Working? then [(mutex.value, p.op)]
    else []
  }

  /** What a thread still has to send. */
  function Pending<L>(p: Phase<L>): seq<byte> {
    match p
    case Sending(bytes) => bytes
    case Reporting(bytes) => bytes
    case Dying(message, pointer) => StringBytes(message + [0], pointer)
    case _ => []
  }

  /** The request a thread has read and not yet handled. */
  function Current<L>(p: Phase<L>): seq<Op> {
    match p
    case Waiting(request) => if request.None? then [] else [request.value]
    case Locked(request) => if request.None? then [] else [request.value]
    case Cleared(request) => if request.None? then [] else [request.value]
    case Working(op, _) => [op]
    case _ => []
  }

  /** One connection: what was and will be sent answers what was asked, in order; what was asked is
      what the client sent; only a thread that has ended or is about to has failed; and only a thread that has
      failed or has come to the end of what the client sent has ended. */
  ghost predicate Talks<L>(es: seq<Exchange>, me: Thread<L>) {
    && Proper(es)
    && Sent(es) == me.outbox + Pending(me.phase)
    && ParseAll(me.received) == Asked(es) + Current(me.phase) + ParseAll(me.inbox)
    && (es != [] && es[|es| - 1].reply.Failed? ==> me.phase.Broken() || me.phase.Gone?)
    && (me.phase.Broken() ==> es != [] && es[|es| - 1].reply.Failed?)
    && (me.phase.Gone? ==> Parse(me.inbox).Ended? || (es != [] && es[|es| - 1].reply.Failed?))
  }

  ghost predicate Conversations<S, L>(st: System<S, L>) {
    forall t :: 0 <= t < |st.threads| ==> Talks(Dialogue(st.log, t), st.threads[t])
  }

  ghost predicate Inv<S, L>(h: Handler<S, L>, s0: S, st: System<S, L>) {
    && Exclusive(st) && Hooked(st) && ExitsIn(h, st) && Serial(h, s0, st) && Conversations(st)
    && forall i :: 0 <= i < |st.log| ==> st.log[i].tid < |st.threads|
  }

  // ---- It holds in every reachable state ----

  /** What a step of thread t may touch besides its own phase. */
  ghost predicate Moves<S, L>(st: System<S, L>, nx: System<S, L>, t: nat)
    requires t < |st.threads|
  {
    && |nx.threads| == |st.threads|
    && (forall i :: 0 <= i < |st.threads| && i != t ==> nx.threads[i] == st.threads[i])
    && var p, q := st.threads[t].phase, nx.threads[t].phase;
    && (if p.Inside() then nx.mutex == if q.Inside() then st.mutex else None
        else if q.Inside() then st.mutex.None? && nx.mutex == Some(t)
        else nx.mutex == st.mutex)
    && (!p.Inside() ==> nx.armed == st.armed && nx.intercepted == st.intercepted)
    && (q.Cleared? ==> !nx.intercepted)
    && (q.Working? ==> if p.Working? then nx.armed == st.armed && nx.intercepted == st.intercepted
                       else p.Cleared? && nx.armed && nx.intercepted == st.intercepted)
    && (q.Dying? ==> p.Working? && nx.armed == st.armed && nx.intercepted == st.intercepted)
  }

  lemma WorkMoves<S(!new), L(!new)>(h: Handler<S, L>, st: System<S, L>, t: nat, error: nat, payload: nat,
      m: Micro<S, L>)
    requires WellBehaved(h) && t < |st.threads| && st.threads[t].phase.Working?
    ensures st.armed ==> Moves(st, Work(h, st, t, error, payload, m), t)
  {
    hide WellBehaved, StringBytes, PayloadBytes;
  }

  lemma AdmitMoves<S, L>(st: System<S, L>, t: nat)
    requires t < |st.threads| && !st.threads[t].phase.Inside()
    ensures Moves(st, Admit(st, t), t)
  {
    hide Parse;
  }

  lemma ServeMoves<S, L>(h: Handler<S, L>, st: System<S, L>, t: nat, chunk: nat)
    requires t < |st.threads| && st.threads[t].phase.Inside()
    requires !st.threads[t].phase.Working? && !st.threads[t].phase.Broken()
    ensures Moves(st, Serve(h, st, t, chunk), t)
  {
  }

  lemma FsopErrorMoves<S, L>(st: System<S, L>, t: nat, chunk: nat)
    requires t < |st.threads| && st.threads[t].phase.Broken()
    ensures Moves(st, FsopError(st, t, chunk), t)
  {
    hide StringBytes;
  }

  lemma AdvanceMoves<S(!new), L(!new)>(h: Handler<S, L>, st: System<S, L>, t: nat, chunk: nat, error: nat,
      payload: nat, m: Micro<S, L>)
    requires WellBehaved(h) && t < |st.threads| && (st.threads[t].phase.Working? ==> st.armed)
    ensures Moves(st, Advance(h, st, t, chunk, error, payload, m), t)
  {
    hide WellBehaved, Moves, Work, Admit, Serve, FsopError;
    var p := st.threads[t].phase;
    if !p.Inside() {
      AdmitMoves(st, t);
    } else if p.Working? {
      WorkMoves(h, st, t, error, payload, m);
    } else if p.Broken() {
      FsopErrorMoves(st, t, chunk);
    } else {
      ServeMoves(h, st, t, chunk);
    }
  }

  lemma MovesKeep<S, L>(st: System<S, L>, nx: System<S, L>, t: nat)
    requires t < |st.threads| && Moves(st, nx, t)
    requires Exclusive(st) && Hooked(st)
    ensures Exclusive(nx) && Hooked(nx)
  {
  }

  lemma ExclusiveStep<S(!new), L(!new)>(h: Handler<S, L>, st: System<S, L>, a: Action<S, L>)
    requires WellBehaved(h) && Exclusive(st) && Hooked(st)
    ensures Exclusive(Next(h, st, a)) && Hooked(Next(h, st, a))
  {
    hide WellBehaved, Advance, Moves;
    if !st.exited && a.Step? && a.t < |st.threads| {
      AdvanceMoves(h, st, a.t, a.chunk, a.error, a.payload, a.micro);
      MovesKeep(st, Next(h, st, a), a.t);
    }
  }

  lemma ExitStep<S(!new), L(!new)>(h: Handler<S, L>, st: System<S, L>, a: Action<S, L>)
    requires WellBehaved(h) && Exclusive(st) && Hooked(st) && ExitsIn(h, st)
    ensures ExitsIn(h, Next(h, st, a))
  {
    hide WellBehaved, Work, Admit, Serve, FsopError;
    if !st.exited && a.Step? && a.t < |st.threads| && st.threads[a.t].phase.Working? {
      WorkExits(h, st, a.t, a.error, a.payload, a.micro);
    }
  }

  lemma WorkExits<S(!new), L(!new)>(h: Handler<S, L>, st: System<S, L>, t: nat, error: nat, payload: nat,
      m: Micro<S, L>)
    requires WellBehaved(h) && Exclusive(st) && Hooked(st) && !st.exited
    requires t < |st.threads| && st.threads[t].phase.Working?
    ensures ExitsIn(h, Work(h, st, t, error, payload, m))
  {
    hide WellBehaved, StringBytes, PayloadBytes;
  }

  lemma ReplaySnoc<S(!new), L(!new)>(h: Handler<S, L>, s0: S, log: seq<Entry<S, L>>, e: Entry<S, L>)
    requires Replay(h, s0, log).Some?
    ensures Replay(h, s0, log + [e]) ==
            Handled(h, Replay(h, s0, log).value, e.exchange.op, e.steps, e.exchange.reply)
    ensures Tickets(log + [e]) == Tickets(log) + [(e.tid, e.exchange.op)]
  {
    hide Handled;
    assert (log + [e])[..|log|] == log;
  }

  lemma SerialStep<S(!new), L(!new)>(h: Handler<S, L>, s0: S, st: System<S, L>, a: Action<S, L>)
    requires WellBehaved(h) && Exclusive(st) && Hooked(st) && Serial(h, s0, st)
    ensures Exclusive(Next(h, st, a)) && Serial(h, s0, Next(h, st, a))
  {
    hide WellBehaved, Advance, Serial;
    ExclusiveStep(h, st, a);
    if !st.exited && a.Step? && a.t < |st.threads| {
      SerialAdvance(h, s0, st, a.t, a.chunk, a.error, a.payload, a.micro);
    } else {
      SerialSame(h, s0, st, Next(h, st, a));
    }
  }

  lemma SerialAdvance<S(!new), L(!new)>(h: Handler<S, L>, s0: S, st: System<S, L>, t: nat, chunk: nat, error: nat,
                                        payload: nat, m: Micro<S, L>)
    requires WellBehaved(h) && Exclusive(st) && Hooked(st) && Serial(h, s0, st) && t < |st.threads|
    requires Exclusive(Advance(h, st, t, chunk, error, payload, m))
    ensures Serial(h, s0, Advance(h, st, t, chunk, error, payload, m))
  {
    hide WellBehaved, Serial, Exclusive, Work, Admit, Serve, FsopError, Hooked;
    var p := st.threads[t].phase;
    if !p.Inside() {
      SerialAdmit(h, s0, st, t);
    } else if p.Working? {
      SerialWork(h, s0, st, t, error, payload, m);
    } else if p.Broken() {
      SerialFsopError(h, s0, st, t, chunk);
    } else {
      SerialServe(h, s0, st, t, chunk);
    }
  }

  /** Steps outside the mutex change nothing that Serial speaks of. */
  lemma SerialSame<S, L>(h: Handler<S, L>, s0: S, st: System<S, L>, nx: System<S, L>)
    requires Exclusive(st) && Exclusive(nx) && Serial(h, s0, st)
    requires nx == st.(threads := nx.threads) && HolderPhase(nx) == HolderPhase(st)
    ensures Serial(h, s0, nx)
  {
    hide Replay, Tickets, Iterate, Exclusive, HolderPhase;
  }

  lemma SerialLock<S, L>(h: Handler<S, L>, s0: S, st: System<S, L>, nx: System<S, L>, t: nat, request: Option<Op>)
    requires Exclusive(st) && Exclusive(nx) && Serial(h, s0, st) && st.mutex.None?
    requires nx == st.(threads := nx.threads, mutex := Some(t), order := st.order + Ticket(t, request))
    requires HolderPhase(nx) == Locked(request)
    ensures Serial(h, s0, nx)
  {
    hide Replay, Tickets, Iterate, Exclusive;
  }

  lemma SerialAdmit<S, L>(h: Handler<S, L>, s0: S, st: System<S, L>, t: nat)
    requires Exclusive(st) && Serial(h, s0, st) && t < |st.threads| && !st.threads[t].phase.Inside()
    requires Exclusive(Admit(st, t))
    ensures Serial(h, s0, Admit(st, t))
  {
    hide Parse, Serial, Ticket;
    var p := st.threads[t].phase;
    if p.Waiting? && st.mutex.None? {
      SerialLock(h, s0, st, Admit(st, t), t, p.request);
    } else {
      SerialSame(h, s0, st, Admit(st, t));
    }
  }

  lemma SerialServe<S, L>(h: Handler<S, L>, s0: S, st: System<S, L>, t: nat, chunk: nat)
    requires Exclusive(st) && Serial(h, s0, st) && t < |st.threads| && st.threads[t].phase.Inside()
    requires !st.threads[t].phase.Working? && !st.threads[t].phase.Broken() && Exclusive(Serve(h, st, t, chunk))
    ensures Serial(h, s0, Serve(h, st, t, chunk))
  {
    hide Replay, Tickets, Iterate;
    if st.threads[t].phase.Cleared? {
      IterateStart(h, Replay(h, s0, st.log).value, st.threads[t].phase.request);
    }
  }

  lemma SerialFsopError<S, L>(h: Handler<S, L>, s0: S, st: System<S, L>, t: nat, chunk: nat)
    requires Exclusive(st) && Serial(h, s0, st) && t < |st.threads| && st.threads[t].phase.Broken()
    requires Exclusive(FsopError(st, t, chunk))
    ensures Serial(h, s0, FsopError(st, t, chunk))
  {
    hide Replay, Tickets, Iterate, StringBytes;
  }

  lemma IterateStart<S, L>(h: Handler<S, L>, s: S, request: Option<Op>)
    ensures request.Some? ==> Iterate(h, s, request.value, []) == Some((s, h.start))
  {
  }

  lemma SerialWork<S(!new), L(!new)>(h: Handler<S, L>, s0: S, st: System<S, L>, t: nat, error: nat,
      payload: nat, m: Micro<S, L>)
    requires WellBehaved(h) && Exclusive(st) && Hooked(st) && Serial(h, s0, st)
    requires t < |st.threads| && st.threads[t].phase.Working? && Exclusive(Work(h, st, t, error, payload, m))
    ensures Serial(h, s0, Work(h, st, t, error, payload, m))
  {
    hide StringBytes, PayloadBytes, WellBehaved, Replay, Tickets;
    var next := Work(h, st, t, error, payload, m);
    if next.log != st.log {
      ReplaySnoc(h, s0, st.log, next.log[|st.log|]);
    }
  }

  lemma DialogueSnoc<S, L>(log: seq<Entry<S, L>>, e: Entry<S, L>, t: nat)
    ensures Dialogue(log + [e], t) == Dialogue(log, t) + if e.tid == t then [e.exchange] else []
  {
    assert (log + [e])[..|log|] == log;
  }

  lemma {:induction false} DialogueNone<S, L>(log: seq<Entry<S, L>>, t: nat)
    requires forall i :: 0 <= i < |log| ==> log[i].tid < t
    ensures Dialogue(log, t) == []
  {
    if log != [] { DialogueNone(log[..|log| - 1], t); }
  }

  lemma TalksStart<L>(received: seq<byte>)
    ensures Talks([], Thread<L>.Thread(received, received, [], Reading))
  {
    hide ParseAll;
    assert [] + [] + ParseAll(received) == ParseAll(received);
  }

  lemma TalksAdmit<S, L>(es: seq<Exchange>, st: System<S, L>, t: nat)
    requires t < |st.threads| && !st.threads[t].phase.Inside() && Talks(es, st.threads[t])
    ensures Talks(es, Admit(st, t).threads[t])
  {
    hide Parse, Sent, Asked, Proper;
    var me := st.threads[t];
    if me.phase.Reading? && Parse(me.inbox).Got? {
      var op, rest := Parse(me.inbox).op, Parse(me.inbox).rest;
      assert Asked(es) + [] + ([op] + ParseAll(rest)) == Asked(es) + [op] + ParseAll(rest);
    }
  }

  lemma TalksServe<S, L>(h: Handler<S, L>, es: seq<Exchange>, st: System<S, L>, t: nat, chunk: nat)
    requires t < |st.threads| && st.threads[t].phase.Inside() && Talks(es, st.threads[t])
    requires !st.threads[t].phase.Working? && !st.threads[t].phase.Broken()
    ensures Talks(es, Serve(h, st, t, chunk).threads[t])
  {
    hide ParseAll, Sent, Asked, Proper;
    var me := st.threads[t];
    if me.phase.Sending? && me.phase.bytes != [] { Piecewise(me.outbox, me.phase.bytes, Chunk(chunk, me.phase.bytes)); }
  }

  lemma Piecewise(out: seq<byte>, bytes: seq<byte>, k: nat)
    requires k <= |bytes|
    ensures out + bytes == out + bytes[..k] + bytes[k..]
  {
    assert bytes == bytes[..k] + bytes[k..];
  }

  lemma TalksFsopError<S, L>(es: seq<Exchange>, st: System<S, L>, t: nat, chunk: nat)
    requires t < |st.threads| && st.threads[t].phase.Broken() && Talks(es, st.threads[t])
    requires st.threads[t].phase.Dying? ==> !st.intercepted
    ensures Talks(es, FsopError(st, t, chunk).threads[t])
  {
    hide ParseAll, Sent, Asked, Proper, StringBytes;
    var me := st.threads[t];
    if me.phase.Reporting? && me.phase.bytes != [] {
      Piecewise(me.outbox, me.phase.bytes, Chunk(chunk, me.phase.bytes));
    }
  }

  lemma TalksWork<S(!new), L(!new)>(h: Handler<S, L>, es: seq<Exchange>, st: System<S, L>, t: nat, error: nat,
                                    payload: nat, m: Micro<S, L>)
    requires WellBehaved(h) && t < |st.threads| && st.threads[t].phase.Working? && st.armed && !st.intercepted
    requires Talks(es, st.threads[t])
    ensures var nx := Work(h, st, t, error, payload, m);
      if nx.log == st.log then Talks(es, nx.threads[t])
      else |nx.log| == |st.log| + 1 && nx.log[..|st.log|] == st.log && nx.log[|st.log|].tid == t
           && Talks(es + [nx.log[|st.log|].exchange], nx.threads[t])
  {
    hide ParseAll, Sent, Asked, Proper, StringBytes, PayloadBytes, Talks, Answers;
    var nx := Work(h, st, t, error, payload, m);
    if nx.log != st.log {
      TalksMore(es, nx.log[|st.log|].exchange, st.threads[t], nx.threads[t]);
    } else {
      TalksOn(es, st.threads[t], nx.threads[t]);
    }
  }

  /** A step in the middle of a handler says nothing to the client. */
  lemma TalksOn<L>(es: seq<Exchange>, me: Thread<L>, next: Thread<L>)
    requires Talks(es, me) && me.phase.Working? && next.phase.Working? && next.phase.op == me.phase.op
    requires next == me.(phase := next.phase)
    ensures Talks(es, next)
  {
    hide ParseAll, Sent, Asked, Proper;
  }

  /** The last step of a handler decides the reply. */
  lemma TalksMore<L>(es: seq<Exchange>, e: Exchange, me: Thread<L>, next: Thread<L>)
    requires Talks(es, me) && me.phase.Working? && me.phase.op == e.op && Answers(e.op, e.reply)
    requires next == me.(phase := next.phase) && Current(next.phase) == []
    requires Pending(next.phase) == ReplyBytes(e.reply, e.error, e.payload)
    requires (next.phase.Broken() <==> e.reply.Failed?) && !next.phase.Gone?
    ensures Talks(es + [e], next)
  {
    hide ParseAll, Sent, Asked, Proper, ReplyBytes, Answers;
    LastDone(es);
    ExchangeSnoc(es, e);
    assert me.outbox + [] == me.outbox;
    assert Asked(es) + [e.op] + [] == Asked(es) + [e.op];
  }

  lemma LastDone(es: seq<Exchange>)
    requires es != [] ==> !es[|es| - 1].reply.Failed?
    ensures es != [] ==> es[|es| - 1].reply.Done?
  {
  }

  lemma TalksStep<S(!new), L(!new)>(h: Handler<S, L>, s0: S, st: System<S, L>, a: Action<S, L>)
    requires WellBehaved(h) && Inv(h, s0, st)
    ensures Conversations(Next(h, st, a))
    ensures forall i :: 0 <= i < |Next(h, st, a).log| ==> Next(h, st, a).log[i].tid < |Next(h, st, a).threads|
  {
    hide WellBehaved, Advance, Serial, Talks, Dialogue;
    var nx := Next(h, st, a);
    if st.exited { return; }
    match a
    case Accept(received) =>
      DialogueNone(st.log, |st.threads|);
      TalksStart<L>(received);
    case Step(t, chunk, error, payload, m) =>
      if t < |st.threads| { TalksAdvance(h, st, t, chunk, error, payload, m); }
  }

  lemma TalksAdvance<S(!new), L(!new)>(h: Handler<S, L>, st: System<S, L>, t: nat, chunk: nat, error: nat,
      payload: nat, m: Micro<S, L>)
    requires WellBehaved(h) && Exclusive(st) && Hooked(st) && Conversations(st) && t < |st.threads|
    requires forall i :: 0 <= i < |st.log| ==> st.log[i].tid < |st.threads|
    ensures var nx := Advance(h, st, t, chunk, error, payload, m);
      Conversations(nx) && forall i :: 0 <= i < |nx.log| ==> nx.log[i].tid < |nx.threads|
  {
    hide WellBehaved, Work, Admit, Serve, FsopError, Talks, Dialogue, Exclusive;
    var p, nx, es := st.threads[t].phase, Advance(h, st, t, chunk, error, payload, m), Dialogue(st.log, t);
    AdvanceMoves(h, st, t, chunk, error, payload, m);
    if !p.Inside() {
      TalksAdmit(es, st, t);
    } else if p.Working? {
      TalksWork(h, es, st, t, error, payload, m);
      if nx.log != st.log {
        forall i: nat | i < |st.threads|
          ensures Dialogue(nx.log, i) == if i == t then es + [nx.log[|st.log|].exchange] else Dialogue(st.log, i)
        {
          DialogueSnoc(st.log, nx.log[|st.log|], i);
          assert nx.log == st.log + [nx.log[|st.log|]];
        }
      }
    } else if p.Broken() {
      TalksFsopError(es, st, t, chunk);
    } else {
      TalksServe(h, es, st, t, chunk);
    }
  }

  /** The invariant holds after every run, however the threads' steps interleave. */
  lemma {:induction false} Reachable<S(!new), L(!new)>(h: Handler<S, L>, s0: S, run: seq<Action<S, L>>)
    requires WellBehaved(h)
    ensures Inv(h, s0, Exec(h, Start(s0), run))
  {
    hide WellBehaved, Next, Exclusive, Hooked, Serial, Conversations;
    if run == [] {
      StartInv(h, s0);
    } else {
      var before := Exec(h, Start(s0), run[..|run| - 1]);
      Reachable(h, s0, run[..|run| - 1]);
      ExclusiveStep(h, before, run[|run| - 1]);
      ExitStep(h, before, run[|run| - 1]);
      SerialStep(h, s0, before, run[|run| - 1]);
      TalksStep(h, s0, before, run[|run| - 1]);
    }
  }

  lemma StartInv<S, L>(h: Handler<S, L>, s0: S)
    ensures Inv(h, s0, Start(s0))
  {
  }

  /** At most one thread is inside an operation; it holds the mutex, and a thread outside does not. */
  lemma MutualExclusion<S(!new), L(!new)>(h: Handler<S, L>, s0: S, run: seq<Action<S, L>>, t: nat, u: nat)
    requires WellBehaved(h)
    ensures var st := Exec(h, Start(s0), run);
      t < |st.threads| ==>
        && (st.threads[t].phase.Inside() <==> st.mutex == Some(t))
        && (u < |st.threads| && st.threads[t].phase.Inside() && st.threads[u].phase.Inside() ==> t == u)
  {
    hide Serial, Hooked, Conversations, WellBehaved;
    Reachable(h, s0, run);
  }

  /** The file system is what the handled requests make of it one after the other, in the order in which
      their threads took the mutex. A handler that calls die_fatal never ends the process; the process
      ends only where a handler takes a step that crashes. */
  lemma SequentialFold<S(!new), L(!new)>(h: Handler<S, L>, s0: S, run: seq<Action<S, L>>)
    requires WellBehaved(h)
    ensures var st := Exec(h, Start(s0), run);
      && ExitsIn(h, st)
      && Replay(h, s0, st.log).Some?
      && Tickets(st.log) <= st.order && |st.order| <= |Tickets(st.log)| + 1
      && (st.mutex.None? ==> st.order == Tickets(st.log) && Replay(h, s0, st.log) == Some(st.fs))
  {
    hide Conversations, WellBehaved, Replay, Tickets, Iterate;
    Reachable(h, s0, run);
  }

  /** Every connection, whenever all replies due are sent: the client that sent these requests reads
      exactly the replies of its handled requests, in the order of the requests; an error is the last. */
  lemma ReplyStream<S(!new), L(!new)>(h: Handler<S, L>, s0: S, run: seq<Action<S, L>>, t: nat)
    requires WellBehaved(h)
    ensures var st := Exec(h, Start(s0), run);
      t < |st.threads| && Pending(st.threads[t].phase) == [] ==>
        var es, me := Dialogue(st.log, t), st.threads[t];
        && ParseReplies(ParseAll(me.received), me.outbox) == Answered(es)
        && Asked(es) <= ParseAll(me.received)
        && Proper(es)
        && (es != [] && es[|es| - 1].reply.Failed? ==> me.phase.Leaving? || me.phase.Reporting? || me.phase.Gone?)
        && (me.phase.Gone? && !(es != [] && es[|es| - 1].reply.Failed?) ==>
              Parse(me.inbox).Ended? && Asked(es) == ParseAll(me.received))
  {
    hide Serial, Hooked, Exclusive, WellBehaved, ParseReplies, ParseAll, Dialogue, Exec, Talks, Proper;
    Reachable(h, s0, run);
    var st := Exec(h, Start(s0), run);
    if t < |st.threads| && Pending(st.threads[t].phase) == [] {
      ThreadReplies(Dialogue(st.log, t), st.threads[t]);
    }
  }

  lemma ThreadReplies<L>(es: seq<Exchange>, me: Thread<L>)
    requires Talks(es, me) && Pending(me.phase) == []
    ensures ParseReplies(ParseAll(me.received), me.outbox) == Answered(es)
    ensures Asked(es) <= ParseAll(me.received) && Proper(es)
    ensures es != [] && es[|es| - 1].reply.Failed? ==> me.phase.Leaving? || me.phase.Reporting? || me.phase.Gone?
    ensures me.phase.Gone? && !(es != [] && es[|es| - 1].reply.Failed?) ==>
              Parse(me.inbox).Ended? && Asked(es) == ParseAll(me.received)
  {
    hide ParseReplies, Asked, Sent, Proper, Answered, Parse;
    Regrouped(Asked(es), Current(me.phase), ParseAll(me.inbox));
    assert me.outbox + [] == me.outbox;
    RepliesInOrder(es, Current(me.phase) + ParseAll(me.inbox));
    DyingSends(me.phase);
  }

  lemma Regrouped(a: seq<Op>, b: seq<Op>, c: seq<Op>)
    ensures a + b + c == a + (b + c) && a <= a + (b + c)
  {
  }

  lemma DyingSends<L>(p: Phase<L>)
    ensures p.Dying? ==> Pending(p) != []
  {
    hide ArrayBytes;
    if p.Dying? { assert |StringBytes(p.message + [0], p.pointer)| >= 2 * WORD; }
  }

  /** How many steps of its own keep a thread inside once its handler has ended. */
  function Rank<L>(p: Phase<L>): nat {
    match p
    case Unhooked => 1
    case Finished => 2
    case Sending(bytes) => 3 + |bytes|
    case Leaving => 1
    case Reporting(bytes) => 2 + |bytes|
    case Dying(message, pointer) => 3 + |StringBytes(message + [0], pointer)|
    case _ => 0
  }

  /** Every way out of an operation ends with the mutex free: each step of a thread whose handler has
      ended, by a reply or by die_fatal, either takes it nearer to the unlock or is the unlock. After a reply
      the thread reads on, after an error it has ended. */
  lemma MutexReleased<S(!new), L(!new)>(h: Handler<S, L>, s0: S, run: seq<Action<S, L>>, t: nat, chunk: nat,
                                        error: nat, payload: nat, m: Micro<S, L>)
    requires WellBehaved(h)
    ensures var st := Exec(h, Start(s0), run);
      t < |st.threads| && 0 < Rank(st.threads[t].phase) ==>
        var nx := Exec(h, Start(s0), run + [Step(t, chunk, error, payload, m)]);
        && t < |nx.threads|
        && if Rank(st.threads[t].phase) == 1 then
             nx.mutex.None? && nx.threads[t].phase == if st.threads[t].phase.Broken() then Gone else Reading
           else 0 < Rank(nx.threads[t].phase) < Rank(st.threads[t].phase)
  {
    hide Serial, Conversations, WellBehaved, Work, Admit, StringBytes;
    Reachable(h, s0, run);
    var longer := run + [Step(t, chunk, error, payload, m)];
    assert longer[..|longer| - 1] == run;
  }

  // ---- Whoever's turn comes is answered ----

  lemma {:induction false} ExecConcat<S(!new), L(!new)>(h: Handler<S, L>, st: System<S, L>, a: seq<Action<S, L>>,
                                                        b: seq<Action<S, L>>)
    requires WellBehaved(h)
    ensures Exec(h, st, a + b) == Exec(h, Exec(h, st, a), b)
    decreases |b|
  {
    hide WellBehaved, Next;
    if b == [] {
      assert a + b == a;
    } else {
      ExecConcat(h, st, a, b[..|b| - 1]);
      assert (a + b)[..|a + b| - 1] == a + b[..|b| - 1];
    }
  }

  /** Thread t takes a step for each of ms, and nobody else does. */
  function Alone<S, L>(t: nat, chunk: nat, error: nat, payload: nat, ms: seq<Micro<S, L>>): (a: seq<Action<S, L>>)
    ensures |a| == |ms| && forall i :: 0 <= i < |ms| ==> a[i] == Step(t, chunk, error, payload, ms[i])
  {
    seq(|ms|, i requires 0 <= i < |ms| => Step(t, chunk, error, payload, ms[i]))
  }

  ghost function Thrice<S(!new), L(!new)>(h: Handler<S, L>, st: System<S, L>, a: Action<S, L>): System<S, L>
    requires WellBehaved(h)
  {
    Next(h, Next(h, Next(h, st, a), a), a)
  }

  lemma ExecFour<S(!new), L(!new)>(h: Handler<S, L>, st: System<S, L>, a: Action<S, L>)
    requires WellBehaved(h)
    ensures Exec(h, st, [a, a, a, a]) == Next(h, Thrice(h, st, a), a)
  {
    hide WellBehaved, Next;
    assert [a][..0] == [] && [a, a][..1] == [a] && [a, a, a][..2] == [a, a] && [a, a, a, a][..3] == [a, a, a];
    assert Exec(h, st, [a]) == Next(h, st, a);
    assert Exec(h, st, [a, a]) == Next(h, Next(h, st, a), a);
    assert Exec(h, st, [a, a, a]) == Thrice(h, st, a);
  }

  /** From the request in front of the inbox to its handler. */
  lemma Entered<S(!new), L(!new)>(h: Handler<S, L>, st: System<S, L>, t: nat, a: Action<S, L>)
    requires WellBehaved(h) && !st.exited && t < |st.threads| && a.Step? && a.t == t && st.mutex.None?
    requires st.threads[t].phase.Reading? && Parse(st.threads[t].inbox).Got?
    ensures var p, me := Parse(st.threads[t].inbox), st.threads[t];
      Next(h, Thrice(h, st, a), a) ==
      st.(mutex := Some(t), intercepted := false, armed := true, current := [], order := st.order + [(t, p.op)],
          threads := st.threads[t := me.(inbox := p.rest, phase := Working(p.op, h.start))])
  {
    hide WellBehaved, Parse, Work, FsopError;
    var p, me := Parse(st.threads[t].inbox), st.threads[t];
    var one := st.(threads := st.threads[t := me.(inbox := p.rest, phase := Waiting(Some(p.op)))]);
    assert Next(h, st, a) == one;
    var two := Enter(one.(mutex := Some(t), order := st.order + [(t, p.op)]), t, Locked(Some(p.op)));
    assert Next(h, one, a) == two;
    var three := Enter(two.(intercepted := false), t, Cleared(Some(p.op)));
    assert Next(h, two, a) == three;
  }

  /** From a reply that is to be sent back to reading. */
  lemma Left<S(!new), L(!new)>(h: Handler<S, L>, st: System<S, L>, t: nat, a: Action<S, L>)
    requires WellBehaved(h) && !st.exited && t < |st.threads| && a.Step? && a.t == t
    requires st.threads[t].phase.Sending? && st.threads[t].phase.bytes != []
    requires a.chunk == |st.threads[t].phase.bytes|
    ensures var me := st.threads[t];
      Next(h, Thrice(h, st, a), a) ==
      st.(mutex := None, armed := false,
          threads := st.threads[t := me.(outbox := me.outbox + me.phase.bytes, phase := Reading)])
  {
    hide WellBehaved, Parse, Work, FsopError;
    var me, bytes := st.threads[t], st.threads[t].phase.bytes;
    assert bytes[..|bytes|] == bytes && bytes[|bytes|..] == [];
    var one := Put(st, t, bytes, Sending([]));
    assert Next(h, st, a) == one;
    var two := Enter(one, t, Finished);
    assert Next(h, one, a) == two;
    var three := Enter(two.(armed := false), t, Unhooked);
    assert Next(h, two, a) == three;
  }

  /** From die_fatal to the end of the thread. */
  lemma Failing<S(!new), L(!new)>(h: Handler<S, L>, st: System<S, L>, t: nat, a: Action<S, L>)
    requires WellBehaved(h) && !st.exited && !st.intercepted && t < |st.threads| && a.Step? && a.t == t
    requires st.threads[t].phase.Dying?
    requires a.chunk == |Pending(st.threads[t].phase)|
    ensures var me := st.threads[t];
      Next(h, Thrice(h, st, a), a) ==
      st.(mutex := None, intercepted := true,
          threads := st.threads[t := me.(outbox := me.outbox + Pending(me.phase), phase := Gone)])
  {
    hide WellBehaved, Parse, Work, StringBytes;
    var me, bytes := st.threads[t], Pending(st.threads[t].phase);
    DyingSends(me.phase);
    assert bytes[..|bytes|] == bytes && bytes[|bytes|..] == [];
    var one := Enter(st.(intercepted := true), t, Reporting(bytes));
    assert Next(h, st, a) == one;
    var two := Put(one, t, bytes, Reporting([]));
    assert Next(h, one, a) == two;
    var three := Enter(two, t, Leaving);
    assert Next(h, two, a) == three;
  }

  /** The handler's steps before its last. */
  lemma {:induction false} Worked<S(!new), L(!new)>(h: Handler<S, L>, st: System<S, L>, t: nat, op: Op, chunk: nat,
                                                    error: nat, payload: nat, ms: seq<Micro<S, L>>)
    requires WellBehaved(h) && !st.exited && t < |st.threads|
    requires st.threads[t].phase == Working(op, h.start) && st.current == [] && Iterate(h, st.fs, op, ms).Some?
    ensures var done := Iterate(h, st.fs, op, ms).value;
      Exec(h, st, Alone(t, chunk, error, payload, ms)) ==
      st.(fs := done.0, current := ms, threads := st.threads[t := st.threads[t].(phase := Working(op, done.1))])
    decreases |ms|
  {
    hide WellBehaved, Admit, Serve, FsopError, StringBytes, PayloadBytes;
    var all := Alone(t, chunk, error, payload, ms);
    if ms == [] {
      assert st.threads[t := st.threads[t].(phase := Working(op, h.start))] == st.threads;
    } else {
      var front := ms[..|ms| - 1];
      Worked(h, st, t, op, chunk, error, payload, front);
      assert all[..|all| - 1] == Alone(t, chunk, error, payload, front);
      assert front + [ms[|ms| - 1]] == ms;
    }
  }

  /** The last step, with its reply. */
  lemma Replied<S(!new), L(!new)>(h: Handler<S, L>, st: System<S, L>, t: nat, a: Action<S, L>, reply: Reply)
    requires WellBehaved(h) && !st.exited && st.armed && !st.intercepted && t < |st.threads| && a.Step? && a.t == t
    requires st.threads[t].phase.Working? && h.step(st.fs, st.threads[t].phase.op, st.threads[t].phase.local, a.micro)
    requires match a.micro
      case Finish(_, payload) => reply == Done(payload)
      case Die(_, message) => reply == Failed(message)
      case _ => false
    ensures Answers(st.threads[t].phase.op, reply)
    ensures var me, nx := st.threads[t], Next(h, st, a);
      && nx == st.(fs := a.micro.state, threads := nx.threads,
                   log := st.log + [Entry(t, st.current + [a.micro], Exchange(me.phase.op, reply, a.error, a.payload))])
      && |nx.threads| == |st.threads| && nx.threads == st.threads[t := me.(phase := nx.threads[t].phase)]
      && Pending(nx.threads[t].phase) == ReplyBytes(reply, a.error, a.payload)
      && if reply.Done? then nx.threads[t].phase.Sending? else nx.threads[t].phase.Dying?
  {
    hide WellBehaved, Admit, Serve, FsopError, StringBytes, PayloadBytes, Answers;
    assert Behaves(st.threads[t].phase.op, a.micro) by { Behaving(h, st.fs, st.threads[t], a.micro); }
  }

  lemma Behaving<S(!new), L(!new)>(h: Handler<S, L>, s: S, me: Thread<L>, m: Micro<S, L>)
    requires WellBehaved(h) && me.phase.Working? && h.step(s, me.phase.op, me.phase.local, m)
    ensures Behaves(me.phase.op, m)
  {
  }

  /** What one request of thread t, answered with reply and leaving s, makes of the system: nothing but this
      thread moved on, to its next request, or after an error to its end. */
  ghost predicate Turned<S, L>(st: System<S, L>, nx: System<S, L>, t: nat, ms: seq<Micro<S, L>>, x: Exchange, s: S)
    requires t < |st.threads| && Answers(x.op, x.reply)
  {
    var me := st.threads[t];
    && nx.fs == s && nx.mutex.None? && !nx.exited && nx.log == st.log + [Entry(t, ms, x)]
    && Parse(me.inbox).Got?
    && nx.threads == st.threads[t := Thread(me.received, Parse(me.inbox).rest,
         me.outbox + ReplyBytes(x.reply, x.error, x.payload), if x.reply.Done? then Reading else Gone)]
  }

  lemma Shown(op: Op, reply: Reply, error: nat, payload: nat)
    requires Answers(op, reply)
    ensures reply.Done? && reply.payload.Listing? ==> AllOk(reply.payload.items)
    ensures ReplyBytes(reply, error, payload) != []
  {
    hide ArrayBytes;
    var text := if reply.Done? then [0] else reply.message + [0];
    assert |StringBytes(text, error)| >= 2 * WORD;
  }

  lemma Parting<S(!new), L(!new)>(h: Handler<S, L>, st: System<S, L>, t: nat, a: Action<S, L>, reply: Reply)
    requires WellBehaved(h) && !st.exited && !st.intercepted && t < |st.threads| && a.Step? && a.t == t
    requires Pending(st.threads[t].phase) != [] && a.chunk == |Pending(st.threads[t].phase)|
    requires if reply.Done? then st.threads[t].phase.Sending? else st.threads[t].phase.Dying?
    ensures var me, nx := st.threads[t], Exec(h, st, [a, a, a, a]);
      && nx.fs == st.fs && nx.mutex.None? && !nx.exited && nx.log == st.log
      && nx.threads == st.threads[t := me.(outbox := me.outbox + Pending(me.phase),
                                           phase := if reply.Done? then Reading else Gone)]
  {
    hide WellBehaved, Next, Thrice, Exec, StringBytes;
    ExecFour(h, st, a);
    if reply.Done? { Left(h, st, t, a); } else { Failing(h, st, t, a); }
  }

  /** A request that has arrived, and whose thread finds the mutex free, is answered by steps of this thread
      alone, as its handler says; and then the connection goes on. */
  lemma AnswerOne<S(!new), L(!new)>(h: Handler<S, L>, s0: S, run: seq<Action<S, L>>, t: nat, ms: seq<Micro<S, L>>,
                                    reply: Reply, error: nat, payload: nat) returns (more: seq<Action<S, L>>)
    requires WellBehaved(h)
    requires var st := Exec(h, Start(s0), run);
      && !st.exited && st.mutex.None? && t < |st.threads| && st.threads[t].phase.Reading?
      && Parse(st.threads[t].inbox).Got?
      && Handled(h, st.fs, Parse(st.threads[t].inbox).op, ms, reply).Some?
    ensures forall i :: 0 <= i < |more| ==> more[i].Step? && more[i].t == t
    ensures var st := Exec(h, Start(s0), run);
      var op := Parse(st.threads[t].inbox).op;
      && Answers(op, reply)
      && Turned(st, Exec(h, Start(s0), run + more), t, ms, Exchange(op, reply, error, payload),
                Handled(h, st.fs, op, ms, reply).value)
  {
    hide WellBehaved, Next, Thrice, Exec, Parse, ReplyBytes, Answers, Iterate, Pending;
    var st := Exec(h, Start(s0), run);
    var op, last := Parse(st.threads[t].inbox).op, ms[|ms| - 1];
    var front := ms[..|ms| - 1];
    var a := Step(t, 0, error, payload, last);
    ExecFour(h, st, a);
    Entered(h, st, t, a);
    var inside := Exec(h, st, [a, a, a, a]);
    Worked(h, inside, t, op, 0, error, payload, front);
    var busy := Exec(h, inside, Alone(t, 0, error, payload, front));
    Replied(h, busy, t, a, reply);
    Shown(op, reply, error, payload);
    var out := Next(h, busy, a);
    ExecOne(h, busy, a);
    var b := Step(t, |ReplyBytes(reply, error, payload)|, error, payload, last);
    Parting(h, out, t, b, reply);
    more := [a, a, a, a] + (Alone(t, 0, error, payload, front) + ([a] + [b, b, b, b]));
    ExecConcat(h, Start(s0), run, more);
    ExecConcat(h, st, [a, a, a, a], Alone(t, 0, error, payload, front) + ([a] + [b, b, b, b]));
    ExecConcat(h, inside, Alone(t, 0, error, payload, front), [a] + [b, b, b, b]);
    ExecConcat(h, busy, [a], [b, b, b, b]);
    assert front + [last] == ms;
  }

  lemma ExecOne<S(!new), L(!new)>(h: Handler<S, L>, st: System<S, L>, a: Action<S, L>)
    requires WellBehaved(h)
    ensures Exec(h, st, [a]) == Next(h, st, a)
  {
    hide WellBehaved, Next;
    assert [a][..0] == [];
  }
}
