/** The server with the file system's own handlers. */
module FileServer {
  import opened Bytes
  import opened Layout
  import opened Disk
  import opened Chains
  import opened Results
  import opened Image
  import opened FileIo
  import opened Namespace
  import opened Purge
  import opened Subtrees
  import opened Paths
  import opened Drivers
  import opened Wire
  import opened Replies
  import opened Handlers
  import opened Runs
  import opened Removal
  import opened Server

  /** A container as a value. */
  datatype Snapshot = Snapshot(d: Disk, live: map<int, seq<int>>)

  /** A consistent file system, and a request that is no removal. */
  ghost predicate Ready(g: Geometry, s: Snapshot, op: Op) {
    && g.Ok() && Wf(g, s.d, s.live) && Closed(FilesOf(g, s.d, s.live)) && g.MetaPages() in s.live && Servable(op)
  }

  /** The step that a handler ending in r takes: fsop_error for a failure, else the payload. */
  function EndOf(r: Result<Payload>, s: Snapshot): Micro<Snapshot, ()> {
    if r.Ok? then Finish(s, r.value) else Die(s, Ascii(Text(r.error)))
  }

  /** What ends a ready request: unless it lacks blocks, the file system is consistent again, and its files
      are as the request makes them. Where nothing was freed before, nothing is freed, and no stat fails. */
  ghost predicate Concludes(g: Geometry, s: Snapshot, op: Op, r: Result<Payload>, s': Snapshot)
    requires Ready(g, s, op)
  {
    && (Settled(op, r) ==>
          && Wf(g, s'.d, s'.live)
          && Served(g.MetaPages(), FilesOf(g, s.d, s.live), s.live, op, r, FilesOf(g, s'.d, s'.live))
          && (Pristine(g, s.d, s.live) ==> Pristine(g, s'.d, s'.live)))
    && (Pristine(g, s.d, s.live) ==> StatAnswers(g.MetaPages(), FilesOf(g, s.d, s.live), op, r))
  }

  /** A stat of a path that leads to a file is answered. */
  ghost predicate StatAnswers(root: int, files: Files, op: Op, r: Result<Payload>) {
    op.Stat? && Located(root, files, CString(op.path)).Ok? ==> r.Ok?
  }

  /** The handlers, one step for each request. Nothing but the form of replies is said about removals and
      about what is left of a file system that lacked blocks: there even a crash is possible. */
  ghost function FileHandlers(g: Geometry): (h: Handler<Snapshot, ()>)
    ensures WellBehaved(h)
  {
    Handler((), (s: Snapshot, op: Op, l: (), m: Micro<Snapshot, ()>) =>
      && Behaves(op, m)
      && (Ready(g, s, op) ==> exists r, s' :: m == EndOf(r, s') && Concludes(g, s, op, r, s')))
  }

  /** What process_operation does is a step the server's handlers can take. */
  method Step(fs: FsDescriptors, op: Op) returns (reply: Reply, ghost m: Micro<Snapshot, ()>)
    requires fs.Valid() && Ready(fs.g, Snapshot(fs.D(), fs.live), op)
    modifies fs`live, fs.container
    ensures FileHandlers(fs.g).step(Snapshot(old(fs.D()), old(fs.live)), op, (), m)
    ensures !m.Crash? && !m.More? && m.state == Snapshot(fs.D(), fs.live)
    ensures reply == if m.Finish? then Done(m.payload) else Failed(m.message)
  {
    hide Wf, FilesOf, Served, Answers, Ascii, Text, Pristine, Located, CString;
    ghost var s := Snapshot(fs.D(), fs.live);
    ghost var r;
    reply, r := ProcessOperation(fs, op);
    m := EndOf(r, Snapshot(fs.D(), fs.live));
    assert Concludes(fs.g, s, op, r, m.state);
  }

  /** The step that a removal takes: with the right reply, or into a pointer that points nowhere. */
  function RemovalStep(end: RmEnd, s: Snapshot): Micro<Snapshot, ()> {
    match end
    case Returned => Finish(s, Nothing)
    case Died(e) => Die(s, Ascii(Text(e)))
    case Crashed => Crash
  }

  /** And what fsop_Remove does is one: in a tree, it crashes exactly for the first item of a directory, and
      otherwise leaves what rm leaves. */
  method StepRemove(fs: FsDescriptors, op: Op, ghost t: Tree)
      returns (end: RmEnd, ghost m: Micro<Snapshot, ()>, ghost mid: Snapshot)
    requires fs.Valid() && Healthy(fs.g, fs.D(), fs.live, t) && op.Remove? && 0 in op.path
    requires RmAnswerable(fs.g, fs.live, fs.Files(), CString(op.path))
    modifies fs`live, fs.container
    ensures m == RemovalStep(end, Snapshot(fs.D(), fs.live))
    ensures FileHandlers(fs.g).step(Snapshot(old(fs.D()), old(fs.live)), op, (), m)
    ensures match RmParent(fs.g.MetaPages(), old(fs.Files()), CString(op.path))
      case Fatal(e) => end == Died(e) && fs.D() == old(fs.D()) && fs.live == old(fs.live)
      case Ok(parent) =>
        RmEffect(fs.g, old(fs.D()), old(fs.live), t, parent.0, parent.1, end, mid.d, mid.live, fs.D(), fs.live)
    ensures m.Crash? <==>
            var parent := RmParent(fs.g.MetaPages(), old(fs.Files()), CString(op.path));
            && parent.Ok? && parent.value.0 in old(fs.Files())
            && var items := DirectoryItems(old(fs.Files())[parent.value.0]);
            items.Ok? && items.value != [] && FindItem(items.value, parent.value.1) == 0
  {
    hide Wf, FilesOf, Healthy, Ascii, Text, Pristine, Walk, CString, RmAnswerable, RmParent, DirectoryItems, Served;
    CStringEnds(op.path);
    ghost var d, live;
    end, d, live := Rm(fs, CString(op.path), t);
    mid := Snapshot(d, live);
    m := RemovalStep(end, Snapshot(fs.D(), fs.live));
    assert Behaves(op, m) by { RemovalBehaves(op, end, Snapshot(fs.D(), fs.live)); }
  }

  lemma RemovalBehaves(op: Op, end: RmEnd, s: Snapshot)
    requires op.Remove?
    ensures Behaves(op, RemovalStep(end, s))
  {
  }

  // ---- Whole runs of the server ----

  /** A file system that the program made: every item names a file, and nothing is both file and directory. */
  ghost predicate Sound(g: Geometry, s: Snapshot) {
    && g.Ok() && Wf(g, s.d, s.live) && g.MetaPages() in s.live
    && Closed(FilesOf(g, s.d, s.live)) && Plain(FilesOf(g, s.d, s.live))
  }

  /** The namespace is a tree on a disk where nothing was ever freed. */
  ghost predicate HasTree(g: Geometry, s: Snapshot) {
    g.Ok() && Wf(g, s.d, s.live) && exists t :: Healthy(g, s.d, s.live, t)
  }

  /** What the command line leaves is such a file system: see Runs.InitAndRun. */
  lemma TreeSound(g: Geometry, s: Snapshot)
    requires HasTree(g, s)
    ensures Sound(g, s) && Pristine(g, s.d, s.live)
  {
    hide Wf, FilesOf, Closed, Plain, Inodes, IsTree, Pristine;
    var t :| Healthy(g, s.d, s.live, t);
    HealthyParts(g, s.d, s.live, t);
  }

  /** A request that sets not both flags, and is no removal: see Witness.BothFlags and Removal.RmIn. */
  ghost predicate Sensible(op: Op) { Servable(op) && (op.Create? ==> PlainFlags(op.flags)) }

  /** The replies that want of blocks is told by. */
  ghost predicate Lacking(x: Exchange) {
    && (x.op.Write? || x.op.Create?)
    && (x.reply == Failed(Ascii(Text(NoSpace))) || x.reply == Failed(Ascii(Text(Internal))))
  }

  lemma ServedSound(g: Geometry, s: Snapshot, op: Op, r: Result<Payload>, s': Snapshot)
    requires Sound(g, s) && Sensible(op) && Wf(g, s'.d, s'.live)
    requires Served(g.MetaPages(), FilesOf(g, s.d, s.live), s.live, op, r, FilesOf(g, s'.d, s'.live))
    ensures Sound(g, s')
  {
    hide Wf, FilesOf, Walk, Closed, Plain, Created, DirectoryItems, Split, NoDouble, CString, Tells, ParentVerdict,
      Located, Objects;
    var files, files' := FilesOf(g, s.d, s.live), FilesOf(g, s'.d, s'.live);
    if r.Fatal? {
      if files' != files {
        var i :| Orphaned(files, op.flags, i, files');
        OrphanClosed(files, i, op.flags);
      }
    } else if op.Create? {
      var inode :| MadeBy(g.MetaPages(), files, CString(op.path), op.flags, inode, files');
      CreatedSound(g, s', files, op, inode);
    } else if op.Write? {
      WriteSameNames(files, files', Walk(files, g.MetaPages(), Tokens(CString(op.path))).value);
      SameNamesClosed(files, files');
      SameNamesPlain(files, files');
    }
  }

  /** Whatever a settled request does, the namespace stays a tree. */
  lemma ServedTree(g: Geometry, s: Snapshot, op: Op, r: Result<Payload>, s': Snapshot)
    requires HasTree(g, s) && Sensible(op) && Wf(g, s'.d, s'.live) && Pristine(g, s'.d, s'.live)
    requires Served(g.MetaPages(), FilesOf(g, s.d, s.live), s.live, op, r, FilesOf(g, s'.d, s'.live))
    ensures HasTree(g, s')
  {
    hide Wf, FilesOf, Walk, Closed, Plain, Created, DirectoryItems, Split, NoDouble, CString, Tells, ParentVerdict,
      Located, Objects, Healthy, Pristine, Inodes, IsTree, Orphans, IsFile;
    var files, files' := FilesOf(g, s.d, s.live), FilesOf(g, s'.d, s'.live);
    var t :| Healthy(g, s.d, s.live, t);
    HealthyParts(g, s.d, s.live, t);
    if files' == files {
      SameHealthy(g, s.d, s.live, t, s'.d, s'.live);
    } else if r.Fatal? {
      var i :| Orphaned(files, op.flags, i, files');
      OrphanHealthy(g, s.d, s.live, t, s'.d, s'.live, i, op.flags);
    } else if op.Create? {
      MadeTree(g, s, op, s', t);
    } else {
      var h := Walk(files, g.MetaPages(), Tokens(CString(op.path))).value;
      WalkInTree(files, t, Tokens(CString(op.path)));
      WrittenHealthy(g, s.d, s.live, t, s'.d, s'.live, h);
    }
  }

  lemma MadeTree(g: Geometry, s: Snapshot, op: Op, s': Snapshot, t: Tree)
    requires g.Ok() && Wf(g, s.d, s.live) && Healthy(g, s.d, s.live, t) && Sensible(op) && op.Create?
    requires Wf(g, s'.d, s'.live) && Pristine(g, s'.d, s'.live)
    requires exists inode ::
        MadeBy(g.MetaPages(), FilesOf(g, s.d, s.live), CString(op.path), op.flags, inode, FilesOf(g, s'.d, s'.live))
    ensures HasTree(g, s')
  {
    hide Wf, FilesOf, Walk, Closed, Plain, DirectoryItems, Split, NoDouble, Healthy, Pristine, Inodes, IsTree, Orphans;
    var files := FilesOf(g, s.d, s.live);
    var inode :| MadeBy(g.MetaPages(), files, CString(op.path), op.flags, inode, FilesOf(g, s'.d, s'.live));
    HealthyParts(g, s.d, s.live, t);
    var parts, last := Tokens(CString(op.path)), |Tokens(CString(op.path))| - 1;
    var dir := Walk(files, g.MetaPages(), parts[..last]).value;
    WalkInTree(files, t, parts[..last]);
    InodeBound(g, s'.d, s'.live, inode);
    CStringEnds(op.path);
    SplitBytesOf(CString(op.path));
    PlainCanCreate(files, dir, inode, parts[last]);
    CreatedHealthy(g, s.d, s.live, t, s'.d, s'.live, dir, inode, op.flags, parts[last]);
  }

  lemma CreatedSound(g: Geometry, s: Snapshot, files: Files, op: Op, inode: int)
    requires g.Ok() && Wf(g, s.d, s.live) && Closed(files) && Plain(files) && Sensible(op) && op.Create?
    requires MadeBy(g.MetaPages(), files, CString(op.path), op.flags, inode, FilesOf(g, s.d, s.live))
    ensures Closed(FilesOf(g, s.d, s.live)) && Plain(FilesOf(g, s.d, s.live)) && files.Keys <= s.live.Keys
  {
    hide Wf, FilesOf, Walk, Closed, Plain, DirectoryItems, Split, NoDouble;
    var parts, last := Tokens(CString(op.path)), |Tokens(CString(op.path))| - 1;
    var dir := Walk(files, g.MetaPages(), parts[..last]).value;
    InodeBound(g, s.d, s.live, inode);
    CStringEnds(op.path);
    SplitBytesOf(CString(op.path));
    PlainCanCreate(files, dir, inode, parts[last]);
    CreateClosed(files, dir, inode, op.flags, parts[last]);
    CreatedPlain(files, dir, inode, op.flags, parts[last]);
  }

  lemma StepEnds(g: Geometry, s: Snapshot, op: Op, m: Micro<Snapshot, ()>)
    requires Ready(g, s, op)
    ensures FileHandlers(g).step(s, op, (), m) ==> m.Finish? || m.Die?
  {
    hide Ready, Behaves;
    if FileHandlers(g).step(s, op, (), m) {
      var r, s' :| m == EndOf(r, s') && Concludes(g, s, op, r, s');
    }
  }

  /** In a sound file system a sensible request takes one step, with a reply, and leads to a sound one. */
  lemma OneStep(g: Geometry, s: Snapshot, op: Op, steps: seq<Micro<Snapshot, ()>>)
    requires Sound(g, s) && Sensible(op)
    ensures steps != [] ==> Iterate(FileHandlers(g), s, op, steps) == None
    ensures !FileHandlers(g).step(s, op, (), Crash)
    decreases |steps|
  {
    hide Wf, FilesOf, Closed, Plain, Concludes, Behaves, Sound, Ready, Sensible;
    SoundReady(g, s, op);
    StepEnds(g, s, op, Crash);
    if steps != [] {
      StepEnds(g, s, op, steps[|steps| - 1]);
      OneStep(g, s, op, steps[..|steps| - 1]);
    }
  }

  /** The log, told as what each request made of the file system and told of it, from the start to the end. */
  ghost predicate Account(g: Geometry, tree: bool, log: seq<Entry<Snapshot, ()>>, states: seq<Snapshot>)
    requires g.Ok()
  {
    && |states| == |log| + 1
    && forall i :: 0 <= i < |log| ==> Told(g, tree, states[i], log[i].exchange, states[i + 1])
  }

  ghost predicate Told(g: Geometry, tree: bool, s: Snapshot, x: Exchange, s': Snapshot)
    requires g.Ok()
  {
    && Wf(g, s.d, s.live) && Wf(g, s'.d, s'.live)
    && exists r ::
         && x.reply == ReplyOf(r)
         && Served(g.MetaPages(), FilesOf(g, s.d, s.live), s.live, x.op, r, FilesOf(g, s'.d, s'.live))
         && (tree ==> StatAnswers(g.MetaPages(), FilesOf(g, s.d, s.live), x.op, r))
  }

  lemma HandledSound(g: Geometry, s: Snapshot, e: Entry<Snapshot, ()>, s': Snapshot)
    requires Sound(g, s) && Sensible(e.exchange.op) && !Lacking(e.exchange)
    requires Handled(FileHandlers(g), s, e.exchange.op, e.steps, e.exchange.reply) == Some(s')
    ensures Sound(g, s') && (HasTree(g, s) ==> HasTree(g, s'))
    ensures Told(g, HasTree(g, s), s, e.exchange, s')
  {
    hide Wf, FilesOf, Closed, Plain, Behaves, Served, Text, Ascii, Sound, HasTree, Pristine, StatAnswers;
    var op, n := e.exchange.op, |e.steps| - 1;
    OneStep(g, s, op, e.steps[..n]);
    SoundReady(g, s, op);
    assert FileHandlers(g).step(s, op, (), e.steps[n]);
    var r, t :| e.steps[n] == EndOf(r, t) && Concludes(g, s, op, r, t);
    assert t == s' && e.exchange.reply == ReplyOf(r);
    SoundParts(g, s);
    ServedSound(g, s, op, r, s');
    if HasTree(g, s) {
      TreeSound(g, s);
      ServedTree(g, s, op, r, s');
    }
  }

  lemma SoundReady(g: Geometry, s: Snapshot, op: Op)
    requires Sound(g, s) && Sensible(op)
    ensures Ready(g, s, op)
  {
  }

  lemma SoundParts(g: Geometry, s: Snapshot)
    requires Sound(g, s)
    ensures g.Ok() && Wf(g, s.d, s.live)
  {
  }

  ghost predicate AllSensible(log: seq<Entry<Snapshot, ()>>) {
    forall i :: 0 <= i < |log| ==> Sensible(log[i].exchange.op) && !Lacking(log[i].exchange)
  }

  lemma {:induction false} Accounted(g: Geometry, s0: Snapshot, log: seq<Entry<Snapshot, ()>>)
      returns (states: seq<Snapshot>)
    requires Sound(g, s0) && AllSensible(log) && Replay(FileHandlers(g), s0, log).Some?
    ensures var s := Replay(FileHandlers(g), s0, log).value;
      && Sound(g, s) && (HasTree(g, s0) ==> HasTree(g, s)) && Account(g, HasTree(g, s0), log, states)
      && states[0] == s0 && states[|log|] == s
    decreases |log|
  {
    hide Wf, FilesOf, Closed, Plain, Handled, Sensible, Lacking, Told, FileHandlers, HasTree;
    if log == [] {
      states := [s0];
    } else {
      var front, e := log[..|log| - 1], log[|log| - 1];
      var before := Accounted(g, s0, front);
      var s, s' := Replay(FileHandlers(g), s0, front).value, Replay(FileHandlers(g), s0, log).value;
      HandledSound(g, s, e, s');
      ToldLess(g, HasTree(g, s), HasTree(g, s0), s, e.exchange, s');
      states := before + [s'];
      forall i | 0 <= i < |log|
        ensures Told(g, HasTree(g, s0), states[i], log[i].exchange, states[i + 1])
      {
        if i < |front| {
          assert log[i] == front[i] && Told(g, HasTree(g, s0), before[i], front[i].exchange, before[i + 1]);
        }
      }
    }
  }

  lemma ToldLess(g: Geometry, tree: bool, less: bool, s: Snapshot, x: Exchange, s': Snapshot)
    requires g.Ok() && Told(g, tree, s, x, s') && (less ==> tree)
    ensures Told(g, less, s, x, s')
  {
    hide Served, StatAnswers, ReplyOf;
  }

  /** Every client sends nothing but sensible requests. */
  ghost predicate SensibleClients(st: System<Snapshot, ()>) {
    forall t, op :: 0 <= t < |st.threads| && op in ParseAll(st.threads[t].received) ==> Sensible(op)
  }

  lemma {:induction false} LoggedAsked(log: seq<Entry<Snapshot, ()>>, i: nat)
    requires i < |log|
    ensures log[i].exchange.op in Asked(Dialogue(log, log[i].tid))
    decreases |log|
  {
    var front, e := log[..|log| - 1], log[|log| - 1];
    AskedSnoc(Dialogue(front, log[i].tid), e.exchange);
    if i < |log| - 1 {
      assert front[i] == log[i];
      LoggedAsked(front, i);
    }
    assert Dialogue(front, log[i].tid) + [] == Dialogue(front, log[i].tid);
  }

  lemma {:induction false} AskedSnoc(es: seq<Exchange>, x: Exchange)
    ensures Asked(es + [x]) == Asked(es) + [x.op]
  {
    if es == [] {
      assert [x][1..] == [];
    } else {
      assert (es + [x])[1..] == es[1..] + [x];
      AskedSnoc(es[1..], x);
    }
  }

  lemma TalksAsked(es: seq<Exchange>, me: Thread<()>)
    requires Talks(es, me)
    ensures forall op :: op in Asked(es) ==> op in ParseAll(me.received)
    ensures me.phase.Working? ==> me.phase.op in ParseAll(me.received)
  {
    hide ParseAll, Asked, Proper, Sent, Pending;
    if me.phase.Working? { assert Current(me.phase) == [me.phase.op]; }
  }

  lemma LogSensible(st: System<Snapshot, ()>)
    requires Conversations(st) && SensibleClients(st)
    requires forall i :: 0 <= i < |st.log| ==> st.log[i].tid < |st.threads| && !Lacking(st.log[i].exchange)
    ensures AllSensible(st.log)
  {
    hide ParseAll, Asked, Sensible, Lacking, Talks, Dialogue;
    forall i | 0 <= i < |st.log|
      ensures Sensible(st.log[i].exchange.op)
    {
      var t := st.log[i].tid;
      LoggedAsked(st.log, i);
      TalksAsked(Dialogue(st.log, t), st.threads[t]);
    }
  }

  lemma InsideSound(g: Geometry, st: System<Snapshot, ()>, now: Snapshot)
    requires Sound(g, now) && Exclusive(st) && ExitsIn(FileHandlers(g), st) && Conversations(st) && SensibleClients(st)
    requires var p := HolderPhase(st);
      if p.Working? then Iterate(FileHandlers(g), now, p.op, st.current) == Some((st.fs, p.local)) else st.fs == now
    ensures st.fs == now && !st.exited
  {
    hide ParseAll, Asked, Sensible, Talks, Dialogue, FileHandlers, Sound;
    var p := HolderPhase(st);
    if p.Working? {
      TalksAsked(Dialogue(st.log, st.mutex.value), st.threads[st.mutex.value]);
      OneStep(g, now, p.op, st.current);
      assert p.local == ();
    }
  }

  /** Whatever clients connect, in whatever order their threads take turns: as long as they send sensible
      requests and no write or creation tells of want of blocks, the process does not end, the file system
      is sound at every moment, and the log accounts for all that ever changed in its files. If it was a
      tree on a disk where nothing was freed, so it is at every moment, and every stat of a file is
      answered. */
  lemma ServerSound(g: Geometry, s0: Snapshot, run: seq<Action<Snapshot, ()>>) returns (states: seq<Snapshot>)
    requires Sound(g, s0)
    requires var st := Exec(FileHandlers(g), Start(s0), run);
      SensibleClients(st) && forall i :: 0 <= i < |st.log| ==> !Lacking(st.log[i].exchange)
    ensures var st := Exec(FileHandlers(g), Start(s0), run);
      && !st.exited && Sound(g, st.fs) && (HasTree(g, s0) ==> HasTree(g, st.fs))
      && Account(g, HasTree(g, s0), st.log, states)
      && states[0] == s0 && states[|st.log|] == st.fs
  {
    hide Sound, Replay, Lacking, Sensible, Conversations, Exclusive, Hooked, ExitsIn, Told, FilesOf, Wf, FileHandlers,
      HasTree;
    var h := FileHandlers(g);
    var st := Exec(h, Start(s0), run);
    Reachable(h, s0, run);
    LogSensible(st);
    states := Accounted(g, s0, st.log);
    InsideSound(g, st, Replay(h, s0, st.log).value);
  }

  /** As long as all clients send sensible requests and none is told of want of blocks, the process goes on
      and the namespace is a tree, accounted for by the log. */
  ghost predicate Serves(g: Geometry, s0: Snapshot, run: seq<Action<Snapshot, ()>>, states: seq<Snapshot>)
    requires g.Ok() && Wf(g, s0.d, s0.live)
  {
    var st := Exec(FileHandlers(g), Start(s0), run);
    SensibleClients(st) && (forall i :: 0 <= i < |st.log| ==> !Lacking(st.log[i].exchange)) ==>
      && !st.exited && HasTree(g, st.fs) && Account(g, true, st.log, states)
      && states[0] == s0 && states[|st.log|] == st.fs
  }

  lemma TreeServes(g: Geometry, s0: Snapshot, run: seq<Action<Snapshot, ()>>) returns (states: seq<Snapshot>)
    requires HasTree(g, s0)
    ensures Serves(g, s0, run, states)
  {
    hide Sound, Lacking, SensibleClients, Told, FilesOf, Wf, FileHandlers, Exec, Healthy;
    states := [];
    TreeSound(g, s0);
    var st := Exec(FileHandlers(g), Start(s0), run);
    if SensibleClients(st) && forall i :: 0 <= i < |st.log| ==> !Lacking(st.log[i].exchange) {
      states := ServerSound(g, s0, run);
    }
  }

  /** From an empty container to any moment of a server: init_fs on zeroes, any commands, and then any
      clients. The namespace is a tree at every moment; see Runs.HealthyBlocks for its blocks. */
  method InitAndServe(g: Geometry, container: array<byte>, commands: seq<Command>,
                      ghost run: seq<Action<Snapshot, ()>>)
      returns (r: Result<FsDescriptors>, full: bool, ghost states: seq<Snapshot>)
    requires g.Ok() && container.Length == g.Base(g.blocksCount)
    requires forall i :: 0 <= i < container.Length ==> container[i] == 0
    requires forall i :: 0 <= i < |commands| ==> commands[i].Ok()
    modifies container
    ensures r.Ok? && !full ==> r.value.Valid() && r.value.g == g
    ensures r.Ok? && !full ==> Serves(g, Snapshot(r.value.D(), r.value.live), run, states)
  {
    hide Healthy, Serves, FilesOf, Wf, View, Trace, Short, Aftermath;
    states := [];
    var results;
    ghost var t, files;
    r, results, full, t, files := InitAndRun(g, container, commands);
    if r.Ok? && !full {
      states := TreeServes(g, Snapshot(r.value.D(), r.value.live), run);
    }
  }
}
