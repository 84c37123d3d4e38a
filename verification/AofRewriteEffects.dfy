/**
  What the events of AofRewrite achieve when the system calls succeed, told by what is
  on disk: a write that is flushed is recovered, a crash is followed by a start with the
  flushed dataset, a rewrite leaves one new base and the INCR file opened at the fork, and
  the files it replaced are unlinked.
*/
module AofRewriteEffects {
  import opened Wrappers
  import opened AofManifest
  import opened AofRewrite

  // ------------------------------------------------------------------ short runs

  function Next<D, C>(sem: Semantics<D, C>, aof: string, s: State<D, C>, e: Event<C>): State<D, C> {
    if Enabled(s, e) then Apply(sem, aof, s, e) else s
  }

  lemma {:induction false} RunSplits<D, C>(sem: Semantics<D, C>, aof: string, s: State<D, C>, a: seq<Event<C>>, b: seq<Event<C>>)
    ensures Run(sem, aof, s, a + b) == Run(sem, aof, Run(sem, aof, s, a), b)
    decreases a
  {
    hide Enabled, Apply;
    if a == [] {
      assert a + b == b;
    } else {
      assert (a + b)[1..] == a[1..] + b;
      RunSplits(sem, aof, if Enabled(s, a[0]) then Apply(sem, aof, s, a[0]) else s, a[1..], b);
    }
  }

  lemma RunCons<D, C>(sem: Semantics<D, C>, aof: string, s: State<D, C>, e: Event<C>, rest: seq<Event<C>>)
    ensures Run(sem, aof, s, [e] + rest) == Run(sem, aof, Next(sem, aof, s, e), rest)
  {
    hide Enabled, Apply;
    assert ([e] + rest)[1..] == rest;
  }

  lemma RunTwo<D, C>(sem: Semantics<D, C>, aof: string, s: State<D, C>, a: Event<C>, b: Event<C>)
    ensures Run(sem, aof, s, [a, b]) == Next(sem, aof, Next(sem, aof, s, a), b)
  {
    hide Next, Run;
    assert [a, b] == [a] + ([b] + []);
    RunCons(sem, aof, s, a, [b] + []);
    RunCons(sem, aof, Next(sem, aof, s, a), b, []);
    RunNone(sem, aof, Next(sem, aof, Next(sem, aof, s, a), b));
  }

  lemma RunNone<D, C>(sem: Semantics<D, C>, aof: string, s: State<D, C>)
    ensures Run(sem, aof, s, []) == s
  {}

  lemma RunThree<D, C>(sem: Semantics<D, C>, aof: string, s: State<D, C>, a: Event<C>, b: Event<C>, c: Event<C>)
    ensures Run(sem, aof, s, [a, b, c]) == Next(sem, aof, Next(sem, aof, Next(sem, aof, s, a), b), c)
  {
    hide Next, Run;
    assert [a, b, c] == [a] + [b, c];
    RunCons(sem, aof, s, a, [b, c]);
    RunTwo(sem, aof, Next(sem, aof, s, a), b, c);
  }

  lemma NextKeeps<D, C>(sem: Semantics<D, C>, aof: string, s: State<D, C>, e: Event<C>)
    requires Invariant(sem, aof, s)
    ensures Invariant(sem, aof, Next(sem, aof, s, e))
  {
    hide Invariant, Enabled, Apply;
    if Enabled(s, e) {
      EventKeeps(sem, aof, s, e);
    }
  }

  /** Every state of a run from an empty directory. */
  lemma ReachedOk<D, C>(sem: Semantics<D, C>, aof: string, events: seq<Event<C>>)
    requires IsBaseName(aof)
    ensures Invariant(sem, aof, Run(sem, aof, Initial(sem), events))
  {
    hide Run, Invariant;
    InitialOk(sem, aof);
    RunKeeps(sem, aof, Initial(sem), events);
  }

  // ------------------------------------------------------------- writes and restarts

  /** What a command does is in memory at once, and recovered from disk after a flush. */
  lemma FlushedWrite<D, C>(sem: Semantics<D, C>, aof: string, events: seq<Event<C>>, w: Write<C>)
    requires IsBaseName(aof)
    requires var s := Run(sem, aof, Initial(sem), events); s.proc.Up? && s.proc.pc.Running?
    ensures var s := Run(sem, aof, Initial(sem), events);
            var t := Run(sem, aof, s, [DoWrite(w), Flush]);
            var now := match w case Free(cmd) => sem.anywhere(s.proc.mem.data, cmd) case In(db, cmd) => sem.at(s.proc.mem.data, db, cmd);
            t.proc.Up? && t.proc.pc.Running? && t.proc.mem.data == now && Recover(sem, t.disk) == Some(now)
  {
    hide Run, Recover, Invariant, FlushStep;
    ReachedOk(sem, aof, events);
    var s := Run(sem, aof, Initial(sem), events);
    var t := Next(sem, aof, s, DoWrite(w));
    var u := Next(sem, aof, t, Flush);
    NextKeeps(sem, aof, s, DoWrite(w));
    NextKeeps(sem, aof, t, Flush);
    RunTwo(sem, aof, s, DoWrite(w), Flush);
    RunningMem(sem, aof, t);
    FlushKeeps(sem, aof, t);
    RecoverFlushed(sem, aof, u);
  }

  lemma RunningMem<D, C>(sem: Semantics<D, C>, aof: string, s: State<D, C>)
    requires Invariant(sem, aof, s) && s.proc.Up? && (s.proc.pc.Running? || s.proc.pc.Deleting?)
    ensures MemOk(sem, aof, s.disk, s.flushed, s.proc.mem)
  {}

  /** The process may die at any time; the next one has the flushed dataset, and runs. */
  lemma Restarts<D, C>(sem: Semantics<D, C>, aof: string, events: seq<Event<C>>, rdb: bool, gc: bool)
    requires IsBaseName(aof)
    ensures var s := Run(sem, aof, Initial(sem), events);
            var t := Run(sem, aof, s, [Crash, Boot] + [BootMakeBase(rdb), BootOpenIncr, BootPersist(true, gc)]);
            && t.proc.Up? && (t.proc.pc.Running? || (gc && t.proc.pc.Deleting?))
            && t.proc.mem.data == s.flushed && t.proc.mem.buf == [] && t.proc.mem.child == None
            && t.disk.manifest.Some? && Recover(sem, t.disk) == Some(s.flushed)
  {
    hide Run, Recover, Invariant, BootStep;
    ReachedOk(sem, aof, events);
    var s := Run(sem, aof, Initial(sem), events);
    var down := Next(sem, aof, s, Crash);
    var s0 := Next(sem, aof, down, Boot);
    NextKeeps(sem, aof, s, Crash);
    NextKeeps(sem, aof, down, Boot);
    BootKeeps(sem, aof, down);
    Loaded(sem, aof, down);
    Started(sem, aof, s0, rdb, gc);
    RunSplits(sem, aof, s, [Crash, Boot], [BootMakeBase(rdb), BootOpenIncr, BootPersist(true, gc)]);
    RunTwo(sem, aof, s, Crash, Boot);
    RunThree(sem, aof, s0, BootMakeBase(rdb), BootOpenIncr, BootPersist(true, gc));
  }

  lemma Loaded<D, C>(sem: Semantics<D, C>, aof: string, s: State<D, C>)
    requires Invariant(sem, aof, s) && s.proc.Down?
    ensures var t := BootStep(sem, s);
            && t.proc.Up? && t.proc.pc.Booted? && t.disk == s.disk && t.flushed == s.flushed
            && t.proc.mem.data == s.flushed && Quiet(t.proc.mem)
  {
    hide Recover, Invariant;
    RecoverFlushed(sem, aof, s);
    BootKeeps(sem, aof, s);
  }

  lemma Started<D, C>(sem: Semantics<D, C>, aof: string, s: State<D, C>, rdb: bool, gc: bool)
    requires Invariant(sem, aof, s) && s.proc.Up? && s.proc.pc.Booted? && s.proc.mem.data == s.flushed && Quiet(s.proc.mem)
    ensures var t := Next(sem, aof, Next(sem, aof, Next(sem, aof, s, BootMakeBase(rdb)), BootOpenIncr), BootPersist(true, gc));
            && t.proc.Up? && (t.proc.pc.Running? || (gc && t.proc.pc.Deleting?))
            && t.proc.mem.data == s.flushed && t.proc.mem.buf == [] && t.proc.mem.child == None
            && t.disk.manifest.Some? && Recover(sem, t.disk) == Some(s.flushed)
  {
    hide Recover, Invariant, Persist;
    var a := Next(sem, aof, s, BootMakeBase(rdb));
    var b := Next(sem, aof, a, BootOpenIncr);
    var c := Next(sem, aof, b, BootPersist(true, gc));
    NextKeeps(sem, aof, s, BootMakeBase(rdb));
    NextKeeps(sem, aof, a, BootOpenIncr);
    NextKeeps(sem, aof, b, BootPersist(true, gc));
    RunningMem(sem, aof, c);
    RecoverFlushed(sem, aof, c);
  }

  // ------------------------------------------------------------------- a rewrite

  function Names(infos: seq<Info>): (names: set<string>)
    ensures forall n :: n in names <==> exists i :: 0 <= i < |infos| && infos[i].name == n
  {
    set i | 0 <= i < |infos| :: infos[i].name
  }

  /** rewriteAppendOnlyFileBackground when everything succeeds. */
  function Forking<C>(): seq<Event<C>> {
    [RewriteBegin(true), RewritePersist(true), RewriteFork(true)]
  }

  /** backgroundRewriteDoneHandler when everything succeeds. */
  function Finishing<C>(rdb: bool, gc: bool): seq<Event<C>> {
    [ChildDone(true, rdb), DonePersist(true), DoneSwap(gc)]
  }

  /** The child is neither done nor dead. */
  predicate Meanwhile<C>(e: Event<C>) {
    !e.Crash? && !e.ChildFails? && !e.ChildDone?
  }

  /** What the directory says about am. */
  ghost predicate OnDisk<D, C>(disk: Disk<D, C>, am: Manifest) {
    ReadManifest(disk).Some? && ReadManifest(disk).value.base == am.base && ReadManifest(disk).value.incr == am.incr
    && ReadManifest(disk).value.baseSeq == am.baseSeq && ReadManifest(disk).value.incrSeq == am.incrSeq
  }

  lemma MemOnDisk<D, C>(sem: Semantics<D, C>, aof: string, disk: Disk<D, C>, flushed: D, m: Memory<D, C>)
    requires MemOk(sem, aof, disk, flushed, m)
    ensures OnDisk(disk, m.am) && Tidy(aof, m.am) && m.fd == LastIncr(m.am)
  {}

  /** The fork: one more INCR file, empty and never used, and a child with the dataset. */
  lemma ForkSteps<D, C>(sem: Semantics<D, C>, aof: string, s: State<D, C>)
    requires Invariant(sem, aof, s) && s.proc.Up? && s.proc.pc.Running? && s.proc.mem.child.None?
    ensures var t := Run(sem, aof, s, Forking());
            var m := s.proc.mem;
            && Invariant(sem, aof, t) && t.proc.Up? && t.proc.pc.Running?
            && t.proc.mem.child == Some(m.data) && t.proc.mem.data == m.data
            && t.proc.mem.am == NewIncr(m.am, aof).(dirty := false)
            && LastIncr(t.proc.mem.am) in t.disk.files && t.disk.files[LastIncr(t.proc.mem.am)] == Log([])
  {
    hide Run, Invariant, FlushStep, Persist, NewIncr, Tidy;
    var a := Next(sem, aof, s, RewriteBegin(true));
    var b := Next(sem, aof, a, RewritePersist(true));
    var c := Next(sem, aof, b, RewriteFork(true));
    NextKeeps(sem, aof, s, RewriteBegin(true));
    NextKeeps(sem, aof, a, RewritePersist(true));
    NextKeeps(sem, aof, b, RewriteFork(true));
    RunThree(sem, aof, s, RewriteBegin(true), RewritePersist(true), RewriteFork(true));
    RunningMem(sem, aof, s);
    var s' := s.(proc := s.proc.(mem := s.proc.mem.(selected := None)));
    FlushKeeps(sem, aof, s');
    PersistFiles(b.disk, a.disk, a.proc.pc.temp);
  }

  lemma PersistFiles<D, C>(after: Disk<D, C>, disk: Disk<D, C>, am: Manifest)
    requires after == Persist(disk, am)
    ensures after.files == disk.files
  {}

  ghost predicate Working<D, C>(s: State<D, C>) {
    s.proc.Up? && (s.proc.pc.Running? || s.proc.pc.Deleting?) && s.proc.mem.child.Some?
  }

  /** What stays as it is while the child works. */
  ghost predicate SameRewrite<D, C>(s: State<D, C>, t: State<D, C>)
    requires s.proc.Up? && t.proc.Up?
  {
    var a, b := s.proc.mem, t.proc.mem;
    b.child == a.child && b.am.base == a.am.base && b.am.incr == a.am.incr && b.am.baseSeq == a.am.baseSeq && b.am.incrSeq == a.am.incrSeq
  }

  lemma ChildStaysOne<D, C>(sem: Semantics<D, C>, aof: string, s: State<D, C>, e: Event<C>)
    requires Working(s) && Meanwhile(e)
    ensures var t := Next(sem, aof, s, e); Working(t) && SameRewrite(s, t)
  {
    hide Persist, Execute, Fed;
  }

  lemma {:induction false} ChildStays<D, C>(sem: Semantics<D, C>, aof: string, s: State<D, C>, mid: seq<Event<C>>)
    requires Working(s) && forall e :: e in mid ==> Meanwhile(e)
    ensures var t := Run(sem, aof, s, mid); Working(t) && SameRewrite(s, t)
    decreases mid
  {
    hide Next, Meanwhile;
    if mid != [] {
      ChildStaysOne(sem, aof, s, mid[0]);
      assert [mid[0]] + mid[1..] == mid;
      RunCons(sem, aof, s, mid[0], mid[1..]);
      ChildStays(sem, aof, Next(sem, aof, s, mid[0]), mid[1..]);
    }
  }

  /** The manifest after a rewrite. */
  function Rewritten(am: Manifest, aof: string, rdb: bool): Manifest {
    MarkRewritten(NewBase(am, aof, rdb)).(dirty := false)
  }

  /** The end of a rewrite: the base of the child and the open INCR file are all that is live. */
  lemma FinishSteps<D, C>(sem: Semantics<D, C>, aof: string, s: State<D, C>, rdb: bool, gc: bool)
    requires Invariant(sem, aof, s) && s.proc.Up? && s.proc.pc.Running? && s.proc.mem.child.Some?
    ensures var t := Run(sem, aof, s, Finishing(rdb, gc));
            var am := Rewritten(s.proc.mem.am, aof, rdb);
            && Invariant(sem, aof, t) && t.proc == Up(s.proc.mem.(am := am, child := None), if gc && am.history != [] then Deleting else Running)
            && ReadManifest(t.disk) == Some(am)
            && t.disk.files == s.disk.files[BaseName(aof, s.proc.mem.am.baseSeq + 1, rdb) := Snapshot(s.proc.mem.child.value)]
  {
    hide Run, Invariant, Persist, BaseName, MarkRewritten, NewBase, ReadManifest, Next, MemOk;
    var m := s.proc.mem;
    var temp := MarkRewritten(NewBase(m.am, aof, rdb));
    var name := RewrittenName(aof, m.am, rdb);
    var files := s.disk.files[name := Snapshot(m.child.value)];
    var a := s.(disk := s.disk.(files := files), proc := s.proc.(pc := Renamed(temp, name)));
    var b := a.(disk := Persist(a.disk, temp), proc := a.proc.(pc := Committed(temp.(dirty := false))));
    RenameStep(sem, aof, s, rdb);
    CommitStep(sem, aof, a, gc);
    RunThree(sem, aof, s, ChildDone(true, rdb), DonePersist(true), DoneSwap(gc));
    NextKeeps(sem, aof, s, ChildDone(true, rdb));
    NextKeeps(sem, aof, a, DonePersist(true));
    NextKeeps(sem, aof, b, DoneSwap(gc));
    PersistFiles(b.disk, a.disk, temp);
    RunningMem(sem, aof, s);
    MemOnDisk(sem, aof, s.disk, s.flushed, m);
    RewrittenRead(aof, a.disk, m.am, rdb);
  }

  lemma RenameStep<D, C>(sem: Semantics<D, C>, aof: string, s: State<D, C>, rdb: bool)
    requires s.proc.Up? && s.proc.pc.Running? && s.proc.mem.child.Some?
    ensures var name := RewrittenName(aof, s.proc.mem.am, rdb);
            Next(sem, aof, s, ChildDone(true, rdb)) ==
            s.(disk := s.disk.(files := s.disk.files[name := Snapshot(s.proc.mem.child.value)]),
               proc := s.proc.(pc := Renamed(MarkRewritten(NewBase(s.proc.mem.am, aof, rdb)), name)))
  {
    hide MarkRewritten, NewBase;
  }

  lemma CommitStep<D, C>(sem: Semantics<D, C>, aof: string, s: State<D, C>, gc: bool)
    requires s.proc.Up? && s.proc.pc.Renamed?
    ensures var temp := s.proc.pc.temp.(dirty := false);
            var t := s.(disk := Persist(s.disk, s.proc.pc.temp), proc := s.proc.(pc := Committed(temp)));
            && Next(sem, aof, s, DonePersist(true)) == t
            && Next(sem, aof, t, DoneSwap(gc))
            == t.(proc := Up(s.proc.mem.(am := temp, child := None), if gc && temp.history != [] then Deleting else Running))
  {
    hide Persist;
  }

  lemma RewrittenRead<D, C>(aof: string, disk: Disk<D, C>, am: Manifest, rdb: bool)
    requires Tidy(aof, am)
    ensures var temp := MarkRewritten(NewBase(am, aof, rdb)); ReadManifest(Persist(disk, temp)) == Some(temp.(dirty := false))
  {
    RewrittenTidy(aof, am, rdb);
    ReadBack(aof, MarkRewritten(NewBase(am, aof, rdb)));
  }

  /** By names: one base, one INCR file, and everything else in the history. */
  lemma RewrittenNames(aof: string, am: Manifest, rdb: bool)
    requires Tidy(aof, am)
    ensures var now := Rewritten(am, aof, rdb);
            && LiveNames(now) == [BaseName(aof, am.baseSeq + 1, rdb), LastIncr(am)]
            && forall n :: n in LiveNames(Prefix(am)) ==> n in Names(now.history)
  {
    hide BaseName, Tidy;
    assert am.incr != [] by { TidyIncr(aof, am); }
    var now := Rewritten(am, aof, rdb);
    assert now.incr == [am.incr[|am.incr| - 1]];
    forall n | n in LiveNames(Prefix(am))
      ensures n in Names(now.history)
    {
      InHistory(aof, am, rdb, n);
    }
  }

  lemma TidyIncr(aof: string, am: Manifest)
    requires Tidy(aof, am)
    ensures am.incr != []
  {}

  lemma InHistory(aof: string, am: Manifest, rdb: bool, n: string)
    requires am.incr != [] && n in LiveNames(Prefix(am))
    ensures n in Names(Rewritten(am, aof, rdb).history)
  {
    hide BaseName, Tidy;
    var h := Rewritten(am, aof, rdb).history;
    var last := |am.incr| - 1;
    if am.base.Some? && n == am.base.value.name {
      assert h[last].name == n;
    } else {
      var i :| 0 <= i < last && am.incr[..last][i].name == n;
      assert h[i].name == n;
    }
  }

  /**
    A rewrite that is not disturbed: between the fork and the end of the child anything may
    happen but a crash and the death of the child. Then exactly two files are live: a base
    with a number that no manifest has had, which holds the dataset as it was at the fork, and
    the INCR file opened at the fork. Every file that was live before is in the history.
  */
  lemma RewriteTakesEffect<D, C>(sem: Semantics<D, C>, aof: string, events: seq<Event<C>>, mid: seq<Event<C>>, rdb: bool, gc: bool)
    requires IsBaseName(aof) && forall e :: e in mid ==> Meanwhile(e)
    requires var s := Run(sem, aof, Initial(sem), events);
             && s.proc.Up? && s.proc.pc.Running? && s.proc.mem.child.None?
             && var u := Run(sem, aof, Run(sem, aof, s, Forking()), mid); u.proc.Up? && u.proc.pc.Running?
    ensures var s := Run(sem, aof, Initial(sem), events);
            var fork := Run(sem, aof, s, Forking());
            var t := Run(sem, aof, Run(sem, aof, fork, mid), Finishing(rdb, gc));
            && Forked(aof, s, fork) && Replaced(aof, s, t, rdb) && t.proc.pc == (if gc then Deleting else Running)
            && Fresh(sem, aof, events, rdb)
  {
    hide Run, Invariant, Rewritten, Tidy, OnDisk, Forked, Replaced, MemOk, Fresh;
    ReachedOk(sem, aof, events);
    var s := Run(sem, aof, Initial(sem), events);
    var fork := Run(sem, aof, s, Forking());
    var u := Run(sem, aof, fork, mid);
    var t := Run(sem, aof, u, Finishing(rdb, gc));
    RunningMem(sem, aof, s);
    MemOnDisk(sem, aof, s.disk, s.flushed, s.proc.mem);
    ForkSteps(sem, aof, s);
    RunningMem(sem, aof, fork);
    MemOnDisk(sem, aof, fork.disk, fork.flushed, fork.proc.mem);
    ForkNames(aof, s, fork);
    ChildStays(sem, aof, fork, mid);
    RunKeeps(sem, aof, fork, mid);
    RunningMem(sem, aof, u);
    MemOnDisk(sem, aof, u.disk, u.flushed, u.proc.mem);
    FinishSteps(sem, aof, u, rdb, gc);
    DoneNames(aof, s, u, t, rdb);
    NeverUsed(sem, aof, events, rdb);
  }

  /** On disk: one more live file, an empty INCR file. */
  ghost predicate Forked<D, C>(aof: string, s: State<D, C>, t: State<D, C>) {
    && ReadManifest(s.disk).Some? && ReadManifest(t.disk).Some?
    && var was, now := ReadManifest(s.disk).value, ReadManifest(t.disk).value;
       var incr := IncrName(aof, was.incrSeq + 1);
       LiveNames(now) == LiveNames(was) + [incr] && incr in t.disk.files && t.disk.files[incr] == Log([])
  }

  /** On disk: a new base, with what s has in memory, and a new INCR file, and the live files of s as history. */
  ghost predicate Replaced<D, C>(aof: string, s: State<D, C>, t: State<D, C>, rdb: bool) {
    && s.proc.Up? && t.proc.Up? && ReadManifest(s.disk).Some? && ReadManifest(t.disk) == Some(t.proc.mem.am)
    && var was, now := ReadManifest(s.disk).value, ReadManifest(t.disk).value;
       var base, incr := BaseName(aof, was.baseSeq + 1, rdb), IncrName(aof, was.incrSeq + 1);
       && LiveNames(now) == [base, incr]
       && base in t.disk.files && t.disk.files[base] == Snapshot(s.proc.mem.data)
       && forall n :: n in LiveNames(was) ==> n in Names(now.history)
  }

  lemma ForkNames<D, C>(aof: string, s: State<D, C>, t: State<D, C>)
    requires s.proc.Up? && t.proc.Up? && OnDisk(s.disk, s.proc.mem.am) && OnDisk(t.disk, t.proc.mem.am)
    requires t.proc.mem.am == NewIncr(s.proc.mem.am, aof).(dirty := false)
    requires LastIncr(t.proc.mem.am) in t.disk.files && t.disk.files[LastIncr(t.proc.mem.am)] == Log([])
    ensures Forked(aof, s, t)
  {
    hide IncrName, ReadManifest;
    var am, now := s.proc.mem.am, t.proc.mem.am;
    assert IncrNames(now.incr) == IncrNames(am.incr) + [IncrName(aof, am.incrSeq + 1)];
  }

  lemma DoneNames<D, C>(aof: string, s: State<D, C>, u: State<D, C>, t: State<D, C>, rdb: bool)
    requires s.proc.Up? && u.proc.Up? && t.proc.Up?
    requires var am, now := s.proc.mem.am, u.proc.mem.am;
             && OnDisk(s.disk, am) && Tidy(aof, am) && Tidy(aof, now)
             && now.base == am.base && now.incr == NewIncr(am, aof).incr && now.baseSeq == am.baseSeq
             && t.proc.mem.am == Rewritten(now, aof, rdb) && ReadManifest(t.disk) == Some(t.proc.mem.am)
             && t.disk.files == u.disk.files[BaseName(aof, now.baseSeq + 1, rdb) := Snapshot(s.proc.mem.data)]
    ensures Replaced(aof, s, t, rdb) && t.proc.mem.am.history != []
  {
    hide IncrName, BaseName, ReadManifest, Names, Rewritten, Tidy;
    var am, now := s.proc.mem.am, u.proc.mem.am;
    TidyIncr(aof, am);
    RewrittenNames(aof, now, rdb);
    assert Prefix(now).incr == am.incr && Prefix(now).base == am.base;
    assert LiveNames(Prefix(now)) == LiveNames(am);
    assert LastIncr(now) == IncrName(aof, am.incrSeq + 1);
    var n := LiveNames(am)[0];
    assert n in LiveNames(am);
    HasName(t.proc.mem.am.history, n);
  }

  lemma HasName(infos: seq<Info>, n: string)
    requires n in Names(infos)
    ensures infos != []
  {}

  // ---------------------------------------------------------------- fresh numbers

  function Listed<D, C>(disk: Disk<D, C>): Manifest {
    if ReadManifest(disk).Some? then ReadManifest(disk).value else EMPTY
  }

  /** The names that a rewrite will use have been in no manifest on disk so far. */
  ghost predicate Fresh<D, C>(sem: Semantics<D, C>, aof: string, events: seq<Event<C>>, rdb: bool) {
    var am := Listed(Run(sem, aof, Initial(sem), events).disk);
    forall k :: 0 <= k <= |events| ==> Unlisted(aof, am, Listed(Run(sem, aof, Initial(sem), events[..k]).disk), rdb)
  }

  ghost predicate Unlisted(aof: string, am: Manifest, was: Manifest, rdb: bool) {
    BaseName(aof, am.baseSeq + 1, rdb) !in Names(Entries(was)) && IncrName(aof, am.incrSeq + 1) !in Names(Entries(was))
  }

  ghost predicate Grown(was: Manifest, now: Manifest) {
    was.baseSeq <= now.baseSeq && was.incrSeq <= now.incrSeq
  }

  lemma Unchanged<D, C>(a: Disk<D, C>, b: Disk<D, C>)
    requires a.manifest == b.manifest
    ensures Grown(Listed(a), Listed(b))
  {}

  lemma Written<D, C>(aof: string, disk: Disk<D, C>, am: Manifest)
    requires Tidy(aof, am) && am.dirty
    ensures Listed(Persist(disk, am)) == am.(dirty := false)
  {
    ReadBack(aof, am);
  }

  lemma OpenGrows<D, C>(sem: Semantics<D, C>, aof: string, s: State<D, C>)
    requires Invariant(sem, aof, s) && s.proc.Up? && s.proc.pc.Opening?
    ensures Grown(Listed(s.disk), Listed(Persist(s.disk, s.proc.pc.temp)))
  {
    var m := s.proc.mem;
    MemOnDisk(sem, aof, s.disk, s.flushed, m);
    hide MemOk, Persist, ReadManifest, Tidy, DiskOk;
    NewIncrTidy(aof, m.am);
    Written(aof, s.disk, s.proc.pc.temp);
  }

  lemma CommitGrows<D, C>(sem: Semantics<D, C>, aof: string, s: State<D, C>)
    requires Invariant(sem, aof, s) && s.proc.Up? && s.proc.pc.Renamed?
    ensures Grown(Listed(s.disk), Listed(Persist(s.disk, s.proc.pc.temp)))
  {
    var m := s.proc.mem;
    MemOnDisk(sem, aof, s.disk, s.flushed, m);
    hide MemOk, Persist, ReadManifest, Tidy, DiskOk;
    var rdb := s.proc.pc.temp == MarkRewritten(NewBase(m.am, aof, true));
    RewrittenTidy(aof, m.am, rdb);
    TidyIncr(aof, m.am);
    Written(aof, s.disk, s.proc.pc.temp);
  }

  lemma DeleteGrows<D, C>(sem: Semantics<D, C>, aof: string, s: State<D, C>)
    requires Invariant(sem, aof, s) && s.proc.Up? && s.proc.pc.Deleting?
    ensures Grown(Listed(s.disk), Listed(Persist(s.disk, s.proc.mem.am.(dirty := true))))
  {
    var m := s.proc.mem;
    MemOnDisk(sem, aof, s.disk, s.flushed, m);
    TidyClean(sem, aof, s.disk, s.flushed, m);
    hide MemOk, Persist, ReadManifest, Tidy, DiskOk;
    Written(aof, s.disk, m.am.(dirty := true));
  }

  lemma BootGrows<D, C>(sem: Semantics<D, C>, aof: string, s: State<D, C>)
    requires Invariant(sem, aof, s) && s.proc.Up? && s.proc.pc.BootOpen?
    ensures Grown(Listed(s.disk), Listed(Persist(s.disk, s.proc.mem.am)))
  {
    hide DiskOk, LoadLive;
    var am := s.proc.mem.am;
    if am.dirty {
      Written(aof, s.disk, am);
    }
  }

  lemma NumbersGrowOne<D, C>(sem: Semantics<D, C>, aof: string, s: State<D, C>, e: Event<C>)
    requires Invariant(sem, aof, s)
    ensures Grown(Listed(s.disk), Listed(Next(sem, aof, s, e).disk))
  {
    hide Invariant, ReadManifest, Persist, Grown, NewIncr, NewBase, MarkRewritten, LastIncr, Fed, Execute, Recover;
    var t := Next(sem, aof, s, e);
    if t.disk.manifest == s.disk.manifest {
      Unchanged(s.disk, t.disk);
    } else if e.RewritePersist? {
      OpenGrows(sem, aof, s);
    } else if e.DonePersist? {
      CommitGrows(sem, aof, s);
    } else if e.DeletePersist? {
      DeleteGrows(sem, aof, s);
    } else if e.BootPersist? {
      BootGrows(sem, aof, s);
    }
  }

  lemma {:induction false} NumbersGrow<D, C>(sem: Semantics<D, C>, aof: string, s: State<D, C>, events: seq<Event<C>>)
    requires Invariant(sem, aof, s)
    ensures Grown(Listed(s.disk), Listed(Run(sem, aof, s, events).disk))
    decreases events
  {
    hide Invariant, Next, ReadManifest;
    if events != [] {
      var t := Next(sem, aof, s, events[0]);
      NumbersGrowOne(sem, aof, s, events[0]);
      NextKeeps(sem, aof, s, events[0]);
      assert [events[0]] + events[1..] == events;
      RunCons(sem, aof, s, events[0], events[1..]);
      NumbersGrow(sem, aof, t, events[1..]);
    }
  }

  lemma DiskTidy<D, C>(sem: Semantics<D, C>, aof: string, s: State<D, C>)
    requires Invariant(sem, aof, s)
    ensures Listed(s.disk) == EMPTY || Tidy(aof, Listed(s.disk))
  {}

  /** Numbers above the counters are those of no entry. */
  lemma AboveCounters(aof: string, am: Manifest, was: Manifest, rdb: bool)
    requires Grown(was, am) && (was == EMPTY || Tidy(aof, was))
    ensures Unlisted(aof, am, was, rdb)
  {
    hide BaseName, IncrName;
    var all := Entries(was);
    forall i | 0 <= i < |all|
      ensures all[i].name != BaseName(aof, am.baseSeq + 1, rdb) && all[i].name != IncrName(aof, am.incrSeq + 1)
    {
      EntryNumber(aof, was, i);
      DifferentNames(aof, all[i].name, all[i].seqno, BaseName(aof, am.baseSeq + 1, rdb), am.baseSeq + 1);
      DifferentNames(aof, all[i].name, all[i].seqno, IncrName(aof, am.incrSeq + 1), am.incrSeq + 1);
      DifferentNames(aof, BaseName(aof, am.baseSeq + 1, rdb), am.baseSeq + 1, all[i].name, all[i].seqno);
    }
  }

  lemma EntryNumber(aof: string, am: Manifest, i: nat)
    requires Tidy(aof, am) && i < |Entries(am)|
    ensures var ai := Entries(am)[i];
            || (IsBaseOf(aof, ai.name, ai.seqno) && ai.seqno <= am.baseSeq)
            || (IsIncrOf(aof, ai.name, ai.seqno) && ai.seqno <= am.incrSeq)
    ensures am.baseSeq >= 0 && am.incrSeq > 0
  {
    hide BaseName, IncrName;
    var all, b, h := Entries(am), if am.base.Some? then 1 else 0, |am.history|;
    if i < b {
      assert all[i] == am.base.value;
    } else if i < b + h {
      assert all[i] == am.history[i - b] && Older(aof, am, am.history[i - b]);
    } else {
      assert all[i] == am.incr[i - b - h];
    }
  }

  lemma NeverUsed<D, C>(sem: Semantics<D, C>, aof: string, events: seq<Event<C>>, rdb: bool)
    requires IsBaseName(aof)
    ensures Fresh(sem, aof, events, rdb)
  {
    hide Run, Invariant, Listed, Unlisted, Tidy;
    var s := Initial(sem);
    forall k | 0 <= k <= |events|
      ensures Unlisted(aof, Listed(Run(sem, aof, s, events).disk), Listed(Run(sem, aof, s, events[..k]).disk), rdb)
    {
      var t := Run(sem, aof, s, events[..k]);
      ReachedOk(sem, aof, events[..k]);
      assert events[..k] + events[k..] == events;
      RunSplits(sem, aof, s, events[..k], events[k..]);
      NumbersGrow(sem, aof, t, events[k..]);
      DiskTidy(sem, aof, t);
      AboveCounters(aof, Listed(Run(sem, aof, s, events).disk), Listed(t.disk), rdb);
    }
  }

  // -------------------------------------------------------------------- the history

  /** The loop of aofDelHistoryFiles over n files, and the manifest without them. */
  function Deletions<C>(n: nat): seq<Event<C>> {
    seq(n, _ => DeleteOne)
  }

  lemma {:induction false} DeletesAll<D, C>(sem: Semantics<D, C>, aof: string, s: State<D, C>)
    requires s.proc.Up? && s.proc.pc.Deleting?
    ensures var m := s.proc.mem;
            Run(sem, aof, s, Deletions(|m.am.history|)) ==
            s.(disk := s.disk.(files := s.disk.files - Names(m.am.history)), proc := s.proc.(mem := m.(am := m.am.(history := []))))
    decreases |s.proc.mem.am.history|
  {
    var m := s.proc.mem;
    var h := m.am.history;
    if h == [] {
      assert s.disk.files - Names(h) == s.disk.files;
    } else {
      var t := Next(sem, aof, s, DeleteOne);
      assert t.disk.files == s.disk.files - {h[0].name} && t.proc == s.proc.(mem := m.(am := m.am.(history := h[1..])));
      DeletesAll(sem, aof, t);
      var rest: seq<Event<C>> := Deletions(|h| - 1);
      assert Deletions(|h|) == [DeleteOne] + rest;
      RunCons(sem, aof, s, DeleteOne, rest);
      NamesHead(h);
      assert s.disk.files - {h[0].name} - Names(h[1..]) == s.disk.files - Names(h);
    }
  }

  lemma NamesHead(h: seq<Info>)
    requires h != []
    ensures Names(h) == {h[0].name} + Names(h[1..])
  {
    assert h == [h[0]] + h[1..];
    forall n | n in Names(h)
      ensures n == h[0].name || n in Names(h[1..])
    {
      var i :| 0 <= i < |h| && h[i].name == n;
      assert i > 0 ==> h[1..][i - 1].name == n;
    }
    forall n | n in Names(h[1..])
      ensures n in Names(h)
    {
      var i :| 0 <= i < |h[1..]| && h[1..][i].name == n;
      assert h[i + 1].name == n;
    }
  }

  /** When the history has been deleted, its files are gone, nothing else is, and no manifest lists them. */
  lemma HistoryDeleted<D, C>(sem: Semantics<D, C>, aof: string, events: seq<Event<C>>)
    requires IsBaseName(aof)
    requires var s := Run(sem, aof, Initial(sem), events); s.proc.Up? && s.proc.pc.Deleting?
    ensures var s := Run(sem, aof, Initial(sem), events);
            Cleaned(s, Run(sem, aof, s, Deletions(|s.proc.mem.am.history|) + [DeletePersist(true)]))
  {
    hide Run, Cleaned, Invariant;
    ReachedOk(sem, aof, events);
    DeleteSteps(sem, aof, Run(sem, aof, Initial(sem), events));
  }

  ghost predicate Cleaned<D, C>(s: State<D, C>, t: State<D, C>)
    requires s.proc.Up?
  {
    && t.proc.Up? && t.proc.pc.Running? && t.disk.files == s.disk.files - Names(s.proc.mem.am.history)
    && ReadManifest(s.disk).Some? && ReadManifest(t.disk).Some?
    && ReadManifest(t.disk).value.history == []
    && LiveNames(ReadManifest(t.disk).value) == LiveNames(ReadManifest(s.disk).value)
  }

  lemma DeleteSteps<D, C>(sem: Semantics<D, C>, aof: string, s: State<D, C>)
    requires Invariant(sem, aof, s) && s.proc.Up? && s.proc.pc.Deleting?
    ensures Cleaned(s, Run(sem, aof, s, Deletions(|s.proc.mem.am.history|) + [DeletePersist(true)]))
  {
    hide Run, Invariant, Persist, Tidy, MemOk, Names, ReadManifest;
    var n, m := |s.proc.mem.am.history|, s.proc.mem;
    var t := Run(sem, aof, s, Deletions(n));
    DeletesAll(sem, aof, s);
    RunKeeps(sem, aof, s, Deletions(n));
    RunSplits(sem, aof, s, Deletions(n), [DeletePersist(true)]);
    var last: seq<Event<C>> := [DeletePersist(true)];
    assert last + [] == last;
    RunCons(sem, aof, t, DeletePersist(true), []);
    RunNone(sem, aof, Next(sem, aof, t, DeletePersist(true)));
    RunningMem(sem, aof, s);
    RunningMem(sem, aof, t);
    MemOnDisk(sem, aof, s.disk, s.flushed, m);
    TidyClean(sem, aof, t.disk, t.flushed, t.proc.mem);
    var am := t.proc.mem.am.(dirty := true);
    PersistFiles(Persist(t.disk, am), t.disk, am);
    ReadBack(aof, am);
    PersistRead(aof, t.disk, am);
    assert LiveNames(am.(dirty := false)) == LiveNames(ReadManifest(s.disk).value);
  }

  lemma PersistRead<D, C>(aof: string, disk: Disk<D, C>, am: Manifest)
    requires Tidy(aof, am) && am.dirty
    ensures ReadManifest(Persist(disk, am)) == Some(am.(dirty := false))
  {
    ReadBack(aof, am);
  }

  /** After a rewrite and the deletions that follow it the directory has the two live files, and none of those they replaced. */
  lemma RewriteCleansUp<D, C>(sem: Semantics<D, C>, aof: string, events: seq<Event<C>>, mid: seq<Event<C>>, rdb: bool)
    requires IsBaseName(aof) && forall e :: e in mid ==> Meanwhile(e)
    requires var s := Run(sem, aof, Initial(sem), events);
             && s.proc.Up? && s.proc.pc.Running? && s.proc.mem.child.None?
             && var u := Run(sem, aof, Run(sem, aof, s, Forking()), mid); u.proc.Up? && u.proc.pc.Running?
    ensures var s := Run(sem, aof, Initial(sem), events);
            var t := Run(sem, aof, Run(sem, aof, Run(sem, aof, s, Forking()), mid), Finishing(rdb, true));
            && Replaced(aof, s, t, rdb)
            && var w := Run(sem, aof, t, Deletions(|ReadManifest(t.disk).value.history|) + [DeletePersist(true)]);
               && Cleaned(t, w) && (forall n :: n in LiveNames(ReadManifest(s.disk).value) ==> n !in w.disk.files)
               && forall n :: n in LiveNames(ReadManifest(w.disk).value) ==> n in w.disk.files && w.disk.files[n] == t.disk.files[n]
  {
    hide Run, Invariant, ReadManifest, LiveNames, Names, Forked, Fresh, MemOk;
    RewriteTakesEffect(sem, aof, events, mid, rdb, true);
    ReachedOk(sem, aof, events);
    var s := Run(sem, aof, Initial(sem), events);
    var fork := Run(sem, aof, s, Forking());
    var u := Run(sem, aof, fork, mid);
    var t := Run(sem, aof, u, Finishing(rdb, true));
    RunKeeps(sem, aof, s, Forking());
    RunKeeps(sem, aof, fork, mid);
    RunKeeps(sem, aof, u, Finishing(rdb, true));
    DeleteSteps(sem, aof, t);
    RunningMem(sem, aof, t);
    LiveStay(sem, aof, t.disk, t.flushed, t.proc.mem);
  }

  lemma LiveStay<D, C>(sem: Semantics<D, C>, aof: string, disk: Disk<D, C>, flushed: D, m: Memory<D, C>)
    requires MemOk(sem, aof, disk, flushed, m) && ReadManifest(disk) == Some(m.am)
    ensures forall n :: n in LiveNames(m.am) ==> n in disk.files && n !in Names(m.am.history)
  {
    forall n | n in LiveNames(m.am)
      ensures n in disk.files && n !in Names(m.am.history)
    {
      LoadedThere(sem, disk.files, LiveNames(m.am), sem.empty, n);
      if n in Names(m.am.history) {
        var i :| 0 <= i < |m.am.history| && m.am.history[i].name == n;
        HistoryNotLive(aof, m.am, i);
      }
    }
  }

  lemma {:induction false} LoadedThere<D, C>(sem: Semantics<D, C>, files: Files<D, C>, names: seq<string>, data: D, n: string)
    requires LoadNames(sem, files, names, data).Some? && n in names
    ensures n in files
    decreases names
  {
    if names[0] != n {
      LoadedThere(sem, files, names[1..], LoadFile(sem, data, files[names[0]]), n);
    }
  }

  /** A system call that fails, or a child that does. */
  predicate Fails<C>(e: Event<C>) {
    match e
    case RewriteBegin(ok) => !ok
    case RewritePersist(ok) => !ok
    case RewriteFork(ok) => !ok
    case ChildFails => true
    case ChildDone(ok, _) => !ok
    case DonePersist(ok) => !ok
    case _ => false
  }

  /** A rewrite that fails leaves the server running, with its dataset and the manifest on disk, and without a child. */
  lemma RewriteFails<D, C>(sem: Semantics<D, C>, aof: string, events: seq<Event<C>>, e: Event<C>)
    requires IsBaseName(aof) && Fails(e) && Enabled(Run(sem, aof, Initial(sem), events), e)
    ensures var s := Run(sem, aof, Initial(sem), events);
            var t := Run(sem, aof, s, [e]);
            && t.proc.Up? && t.proc.pc.Running? && t.proc.mem.child.None? && s.proc.Up? && t.proc.mem.data == s.proc.mem.data
            && t.disk.manifest == s.disk.manifest && Recover(sem, t.disk) == Some(t.flushed)
            && (e.DonePersist? ==> t.disk.files == s.disk.files - {s.proc.pc.base})
  {
    hide Run, Recover, Invariant;
    var s := Run(sem, aof, Initial(sem), events);
    ReachedOk(sem, aof, events);
    var last: seq<Event<C>> := [e];
    assert last + [] == last;
    RunCons(sem, aof, s, e, []);
    RunNone(sem, aof, Next(sem, aof, s, e));
    NextKeeps(sem, aof, s, e);
    RecoverFlushed(sem, aof, Next(sem, aof, s, e));
    OpeningQuiet(sem, aof, s);
  }

  lemma OpeningQuiet<D, C>(sem: Semantics<D, C>, aof: string, s: State<D, C>)
    requires Invariant(sem, aof, s)
    ensures s.proc.Up? && s.proc.pc.Opening? ==> s.proc.mem.child.None?
  {}
}
