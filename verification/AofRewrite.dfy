/**
  The append-only file across rewrites, crashes and restarts (src/aof.c).

  Every system call that can be separated from its neighbours by a crash is one
  event: creating a file, persisting the manifest, renaming the rewritten base,
  unlinking one history file. Between two events of the same C function only a
  crash can intervene, because the server is single threaded; the field `pc`
  says how far it got. `flushed` is the dataset after every command whose bytes
  were written to the INCR file. `Invariant` is kept by every event, and gives
  `CrashSafety`: in every reachable state, loading what is on disk yields exactly
  `flushed`.
*/
module AofRewrite {
  import opened Wrappers
  import opened AofManifest

  // -------------------------------------------------------- commands and files

  /** What commands do to a dataset: in a selected database, or in no particular one. */
  datatype Semantics<!D, !C> = Semantics(empty: D, at: (D, nat, C) -> D, anywhere: (D, C) -> D)

  /** One command as it stands in the file. */
  datatype Entry<C> = Select(db: nat) | Command(cmd: C) | Plain(cmd: C)

  datatype Cursor<D> = Cursor(data: D, db: nat)

  function Step<D, C>(sem: Semantics<D, C>, c: Cursor<D>, e: Entry<C>): Cursor<D> {
    match e
    case Select(db) => c.(db := db)
    case Command(cmd) => c.(data := sem.at(c.data, c.db, cmd))
    case Plain(cmd) => c.(data := sem.anywhere(c.data, cmd))
  }

  function Replay<D, C>(sem: Semantics<D, C>, c: Cursor<D>, log: seq<Entry<C>>): Cursor<D>
    decreases log
  {
    if log == [] then c else Replay(sem, Step(sem, c, log[0]), log[1..])
  }

  lemma {:induction false} ReplaySplits<D, C>(sem: Semantics<D, C>, c: Cursor<D>, a: seq<Entry<C>>, b: seq<Entry<C>>)
    ensures Replay(sem, c, a + b) == Replay(sem, Replay(sem, c, a), b)
    decreases a
  {
    if a == [] {
      assert a + b == b;
    } else {
      assert (a + b)[1..] == a[1..] + b;
      ReplaySplits(sem, Step(sem, c, a[0]), a[1..], b);
    }
  }

  /** A rewritten BASE file holds a dataset, an INCR file holds commands. */
  datatype File<D, C> = Snapshot(data: D) | Log(entries: seq<Entry<C>>)

  type Files<D, C> = map<string, File<D, C>>

  /** loadSingleAppendOnlyFile: every file is read by a fresh client, in database 0. */
  function LoadFile<D, C>(sem: Semantics<D, C>, data: D, f: File<D, C>): D {
    match f
    case Snapshot(d) => d
    case Log(entries) => Replay(sem, Cursor(data, 0), entries).data
  }

  /** The loop of loadAppendOnlyFiles; a file that is missing is fatal. */
  function LoadNames<D, C>(sem: Semantics<D, C>, files: Files<D, C>, names: seq<string>, data: D): Option<D>
    decreases names
  {
    if names == [] then Some(data)
    else if names[0] !in files then None
    else LoadNames(sem, files, names[1..], LoadFile(sem, data, files[names[0]]))
  }

  function IncrNames(incr: seq<Info>): (names: seq<string>)
    ensures |names| == |incr| && forall i :: 0 <= i < |incr| ==> names[i] == incr[i].name
  {
    seq(|incr|, i requires 0 <= i < |incr| => incr[i].name)
  }

  /** BASE then INCR: the files that a restart reads. */
  function LiveNames(am: Manifest): seq<string> {
    (if am.base.Some? then [am.base.value.name] else []) + IncrNames(am.incr)
  }

  function LoadLive<D, C>(sem: Semantics<D, C>, files: Files<D, C>, am: Manifest): Option<D> {
    LoadNames(sem, files, LiveNames(am), sem.empty)
  }

  datatype Disk<D, C> = Disk(manifest: Option<seq<Line>>, files: Files<D, C>)

  /** aofLoadManifestFromDisk; None is exit(1). */
  function ReadManifest<D, C>(disk: Disk<D, C>): Option<Manifest> {
    if disk.manifest.None? then Some(EMPTY)
    else
      match Load(disk.manifest.value)
      case Err(_) => None
      case Ok(am) => Some(am)
  }

  /** aofLoadManifestFromDisk, then loadAppendOnlyFiles. */
  function Recover<D, C>(sem: Semantics<D, C>, disk: Disk<D, C>): Option<D> {
    match ReadManifest(disk)
    case None => None
    case Some(am) => LoadLive(sem, disk.files, am)
  }

  /** persistAofManifest when it succeeds. */
  function Persist<D, C>(disk: Disk<D, C>, am: Manifest): Disk<D, C> {
    if am.dirty then disk.(manifest := Some(Format(am))) else disk
  }

  function LastIncr(am: Manifest): string {
    if am.incr == [] then "" else am.incr[|am.incr| - 1].name
  }

  /** am without its last INCR file: what was live before that file was opened. */
  function Prefix(am: Manifest): Manifest
    requires am.incr != []
  {
    am.(incr := am.incr[..|am.incr| - 1])
  }

  // ----------------------------------------------------------- loading lemmas

  lemma {:induction false} LoadFrame<D, C>(sem: Semantics<D, C>, f: Files<D, C>, g: Files<D, C>, names: seq<string>, data: D)
    requires forall n :: n in names ==> (n in f <==> n in g) && (n in f ==> f[n] == g[n])
    ensures LoadNames(sem, f, names, data) == LoadNames(sem, g, names, data)
    decreases names
  {
    if names != [] {
      assert names[0] in names;
      if names[0] in f {
        LoadFrame(sem, f, g, names[1..], LoadFile(sem, data, f[names[0]]));
      }
    }
  }

  lemma {:induction false} LoadSplits<D, C>(sem: Semantics<D, C>, f: Files<D, C>, a: seq<string>, b: seq<string>, data: D)
    ensures LoadNames(sem, f, a + b, data) ==
            match LoadNames(sem, f, a, data) case None => None case Some(d) => LoadNames(sem, f, b, d)
    decreases a
  {
    if a == [] {
      assert a + b == b;
    } else {
      assert (a + b)[1..] == a[1..] + b;
      if a[0] in f {
        LoadSplits(sem, f, a[1..], b, LoadFile(sem, data, f[a[0]]));
      }
    }
  }

  /** Loading everything is loading the prefix, then the last INCR file on top. */
  lemma LoadLast<D, C>(sem: Semantics<D, C>, f: Files<D, C>, am: Manifest)
    requires am.incr != []
    ensures LoadLive(sem, f, am) ==
            match LoadLive(sem, f, Prefix(am))
            case None => None
            case Some(d) => if LastIncr(am) in f then Some(LoadFile(sem, d, f[LastIncr(am)])) else None
  {
    assert LiveNames(am) == LiveNames(Prefix(am)) + [LastIncr(am)];
    LoadSplits(sem, f, LiveNames(Prefix(am)), [LastIncr(am)], sem.empty);
    if LoadLive(sem, f, Prefix(am)).Some? && LastIncr(am) in f {
      var d := LoadFile(sem, LoadLive(sem, f, Prefix(am)).value, f[LastIncr(am)]);
      assert LoadNames(sem, f, [], d) == Some(d);
      assert [LastIncr(am)][1..] == [];
    }
  }

  // ---------------------------------------------------------------- name order

  predicate IsBaseOf(aof: string, name: string, n: int) {
    n > 0 && (name == BaseName(aof, n, true) || name == BaseName(aof, n, false))
  }

  predicate IsIncrOf(aof: string, name: string, n: int) {
    n > 0 && name == IncrName(aof, n)
  }

  /** A history entry is an older BASE, or an INCR before the first live one. */
  predicate Older(aof: string, am: Manifest, ai: Info) {
    || (am.base.Some? && IsBaseOf(aof, ai.name, ai.seqno) && ai.seqno < am.base.value.seqno)
    || (am.incr != [] && IsIncrOf(aof, ai.name, ai.seqno) && ai.seqno < am.incr[0].seqno)
  }

  /** The files are named after their sequence numbers and the counters are the last ones used. */
  predicate Tidy(aof: string, am: Manifest) {
    && IsBaseName(aof) && WellFormed(am) && am.incr != []
    && am.baseSeq == (if am.base.Some? then am.base.value.seqno else 0) >= 0
    && am.incrSeq == am.incr[|am.incr| - 1].seqno
    && (am.base.Some? ==> IsBaseOf(aof, am.base.value.name, am.base.value.seqno))
    && (forall i :: 0 <= i < |am.incr| ==> IsIncrOf(aof, am.incr[i].name, am.incr[i].seqno))
    && (forall i :: 0 <= i < |am.history| ==> Older(aof, am, am.history[i]))
  }

  lemma DifferentNames(aof: string, a: string, m: int, b: string, n: int)
    ensures IsBaseOf(aof, a, m) && IsIncrOf(aof, b, n) ==> a != b
    ensures IsIncrOf(aof, a, m) && IsIncrOf(aof, b, n) && m != n ==> a != b
    ensures IsBaseOf(aof, a, m) && IsBaseOf(aof, b, n) && m != n ==> a != b
  {
    if a == b {
      if IsIncrOf(aof, b, n) {
        if IsIncrOf(aof, a, m) {
          IncrNameInjective(aof, m, n);
        }
        if IsBaseOf(aof, a, m) {
          BaseIsNotIncr(aof, m, true, n);
          BaseIsNotIncr(aof, m, false, n);
        }
      }
      if IsBaseOf(aof, a, m) && IsBaseOf(aof, b, n) {
        BaseNameInjective(aof, m, n, a == BaseName(aof, m, true), b == BaseName(aof, n, true));
      }
    }
  }

  /** A name with a sequence number that no live file of its kind has is not live. */
  lemma NotLive(aof: string, am: Manifest, name: string, n: int)
    requires Tidy(aof, am)
    requires || (IsBaseOf(aof, name, n) && (am.base.Some? ==> n != am.base.value.seqno))
             || (IsIncrOf(aof, name, n) && forall i :: 0 <= i < |am.incr| ==> am.incr[i].seqno != n)
    ensures name !in LiveNames(am)
  {
    if am.base.Some? {
      DifferentNames(aof, am.base.value.name, am.base.value.seqno, name, n);
      DifferentNames(aof, name, n, am.base.value.name, am.base.value.seqno);
    }
    forall i | 0 <= i < |am.incr|
      ensures am.incr[i].name != name
    {
      DifferentNames(aof, name, n, am.incr[i].name, am.incr[i].seqno);
    }
  }

  lemma HistoryNotLive(aof: string, am: Manifest, i: nat)
    requires Tidy(aof, am) && i < |am.history|
    ensures am.history[i].name !in LiveNames(am)
  {
    assert Older(aof, am, am.history[i]);
    NotLive(aof, am, am.history[i].name, am.history[i].seqno);
  }

  lemma LastIncrOnce(aof: string, am: Manifest)
    requires Tidy(aof, am)
    ensures LastIncr(am) !in LiveNames(Prefix(am))
  {
    var last := |am.incr| - 1;
    if am.base.Some? {
      DifferentNames(aof, am.base.value.name, am.base.value.seqno, LastIncr(am), am.incr[last].seqno);
    }
    forall i | 0 <= i < last
      ensures am.incr[i].name != LastIncr(am)
    {
      DifferentNames(aof, am.incr[i].name, am.incr[i].seqno, LastIncr(am), am.incr[last].seqno);
    }
  }

  // --------------------------------------------------------------- the server

  /** A write as the server executes it: in a database, or with dictid -1. */
  datatype Write<C> = In(db: nat, cmd: C) | Free(cmd: C)

  /** am is server.aof_manifest, fd the open INCR file, child what the forked child saw. */
  datatype Memory<D, C> = Memory(
    am: Manifest,
    data: D,
    buf: seq<Entry<C>>,
    selected: Option<nat>,
    fd: string,
    child: Option<D>)

  datatype Pc =
    | Running                        // in the event loop
    | Opening(temp: Manifest)        // openNewIncrAofForAppend: file created
    | Opened(temp: Manifest)         // ... and manifest persisted
    | Renamed(temp: Manifest, base: string) // backgroundRewriteDoneHandler: base in place
    | Committed(temp: Manifest)      // ... and manifest persisted
    | Deleting                       // aofDelHistoryFiles: in the loop
    | Booted                         // data loaded
    | BootBase                       // aofOpenIfNeededOnServerStart: base present
    | BootOpen                       // ... and INCR file open

  datatype Process<D, C> = Down | Up(mem: Memory<D, C>, pc: Pc)

  datatype State<D, C> = State(disk: Disk<D, C>, flushed: D, proc: Process<D, C>)

  /** A run in AOF_ON; rdb is aof_use_rdb_preamble, gc is !aof_disable_auto_gc. */
  datatype Event<C> =
    | DoWrite(w: Write<C>)
    | Flush
    | RewriteBegin(openOk: bool)
    | RewritePersist(ok: bool)
    | RewriteFork(ok: bool)
    | ChildFails
    | ChildDone(renameOk: bool, rdb: bool)
    | DonePersist(ok: bool)
    | DoneSwap(gc: bool)
    | DeleteStart
    | DeleteOne
    | DeletePersist(ok: bool)
    | Crash
    | Boot
    | BootMakeBase(rdb: bool)
    | BootOpenIncr
    | BootPersist(ok: bool, gc: bool)

  /** The bytes feedAppendOnlyFile appends. */
  function Fed<C>(selected: Option<nat>, w: Write<C>): seq<Entry<C>> {
    match w
    case Free(cmd) => [Plain(cmd)]
    case In(db, cmd) => (if selected == Some(db) then [] else [Select(db)]) + [Command(cmd)]
  }

  function Execute<D, C>(sem: Semantics<D, C>, data: D, w: Write<C>): D {
    match w
    case Free(cmd) => sem.anywhere(data, cmd)
    case In(db, cmd) => sem.at(data, db, cmd)
  }

  /** The command runs and is appended to the AOF buffer. */
  function WriteStep<D, C>(sem: Semantics<D, C>, s: State<D, C>, w: Write<C>): State<D, C>
    requires s.proc.Up?
  {
    var m := s.proc.mem;
    s.(proc := Up(m.(data := Execute(sem, m.data, w),
                     buf := m.buf + Fed(m.selected, w),
                     selected := if w.In? then Some(w.db) else m.selected), Running))
  }

  /** flushAppendOnlyFile when the whole buffer is written. */
  function FlushStep<D, C>(s: State<D, C>): State<D, C>
    requires s.proc.Up?
  {
    var m := s.proc.mem;
    if m.fd !in s.disk.files || !s.disk.files[m.fd].Log? then s
    else
      var log := Log(s.disk.files[m.fd].entries + m.buf);
      State(s.disk.(files := s.disk.files[m.fd := log]), m.data, Up(m.(buf := []), s.proc.pc))
  }

  /** rewriteAppendOnlyFileBackground up to open(O_TRUNC|O_CREAT) of the new INCR file. */
  function RewriteBeginStep<D, C>(aof: string, s: State<D, C>, openOk: bool): State<D, C>
    requires s.proc.Up?
  {
    var t := FlushStep(s.(proc := s.proc.(mem := s.proc.mem.(selected := None))));
    if !openOk then t
    else
      var temp := NewIncr(t.proc.mem.am, aof);
      t.(disk := t.disk.(files := t.disk.files[LastIncr(temp) := Log([])]), proc := t.proc.(pc := Opening(temp)))
  }

  function RewritePersistStep<D, C>(s: State<D, C>, ok: bool): State<D, C>
    requires s.proc.Up? && s.proc.pc.Opening?
  {
    if !ok then s.(proc := s.proc.(pc := Running))
    else
      var temp := s.proc.pc.temp;
      s.(disk := Persist(s.disk, temp), proc := s.proc.(pc := Opened(temp.(dirty := false))))
  }

  /** The switch to the new file, then fork. */
  function RewriteForkStep<D, C>(s: State<D, C>, ok: bool): State<D, C>
    requires s.proc.Up? && s.proc.pc.Opened?
  {
    var temp, m := s.proc.pc.temp, s.proc.mem;
    s.(proc := Up(m.(am := temp, fd := LastIncr(temp), child := if ok then Some(m.data) else None), Running))
  }

  function ChildFailsStep<D, C>(s: State<D, C>): State<D, C>
    requires s.proc.Up?
  {
    s.(proc := s.proc.(mem := s.proc.mem.(child := None)))
  }

  /** backgroundRewriteDoneHandler up to rename of the child's file to the new base name. */
  function ChildDoneStep<D, C>(aof: string, s: State<D, C>, renameOk: bool, rdb: bool): State<D, C> {
    if s.proc.Down? || s.proc.mem.child.None? then s
    else
      var m := s.proc.mem;
      if !renameOk then s.(proc := s.proc.(mem := m.(child := None)))
      else
        var temp := MarkRewritten(NewBase(m.am, aof, rdb));
        s.(disk := s.disk.(files := s.disk.files[temp.base.value.name := Snapshot(m.child.value)]),
           proc := s.proc.(pc := Renamed(temp, temp.base.value.name)))
  }

  function DonePersistStep<D, C>(s: State<D, C>, ok: bool): State<D, C>
    requires s.proc.Up? && s.proc.pc.Renamed?
  {
    var temp, m := s.proc.pc.temp, s.proc.mem;
    if ok then s.(disk := Persist(s.disk, temp), proc := s.proc.(pc := Committed(temp.(dirty := false))))
    else s.(disk := s.disk.(files := s.disk.files - {s.proc.pc.base}), proc := Up(m.(child := None), Running))
  }

  /** aofManifestFreeAndUpdate, then the entry of aofDelHistoryFiles. */
  function DoneSwapStep<D, C>(s: State<D, C>, gc: bool): State<D, C> {
    if s.proc.Down? || !s.proc.pc.Committed? then s
    else
      var temp := s.proc.pc.temp;
      s.(proc := Up(s.proc.mem.(am := temp, child := None), if gc && temp.history != [] then Deleting else Running))
  }

  /** The other calls of aofDelHistoryFiles. */
  function DeleteStartStep<D, C>(s: State<D, C>): State<D, C>
    requires s.proc.Up?
  {
    s.(proc := s.proc.(pc := Deleting))
  }

  function DeleteOneStep<D, C>(s: State<D, C>): State<D, C> {
    if s.proc.Down? || s.proc.mem.am.history == [] then s
    else
      var m := s.proc.mem;
      s.(disk := s.disk.(files := s.disk.files - {m.am.history[0].name}),
         proc := s.proc.(mem := m.(am := m.am.(history := m.am.history[1..]))))
  }

  function DeletePersistStep<D, C>(s: State<D, C>, ok: bool): State<D, C>
    requires s.proc.Up?
  {
    var am := s.proc.mem.am.(dirty := true);
    if ok then s.(disk := Persist(s.disk, am), proc := Up(s.proc.mem.(am := am.(dirty := false)), Running))
    else s.(proc := Up(s.proc.mem.(am := am), Running))
  }

  /** A new process: the manifest and the files it lists are loaded. */
  function BootStep<D, C>(sem: Semantics<D, C>, s: State<D, C>): State<D, C> {
    match (ReadManifest(s.disk), Recover(sem, s.disk))
    case (Some(am), Some(d)) => s.(proc := Up(Memory(am, d, [], None, "", None), Booted))
    case _ => s.(proc := Down)
  }

  function BootMakeBaseStep<D, C>(aof: string, s: State<D, C>, rdb: bool): State<D, C>
    requires s.proc.Up?
  {
    var m := s.proc.mem;
    if m.am.base.Some? || m.am.incr != [] then s.(proc := s.proc.(pc := BootBase))
    else
      var am := NewBase(m.am, aof, rdb);
      s.(disk := s.disk.(files := s.disk.files[am.base.value.name := Snapshot(m.data)]),
         proc := Up(m.(am := am), BootBase))
  }

  /** getLastIncrAofName, then open(O_APPEND|O_CREAT). */
  function BootOpenIncrStep<D, C>(aof: string, s: State<D, C>): State<D, C>
    requires s.proc.Up?
  {
    var m := s.proc.mem;
    var am := if m.am.incr == [] then NewIncr(m.am, aof) else m.am;
    var name := LastIncr(am);
    s.(disk := s.disk.(files := if name in s.disk.files then s.disk.files else s.disk.files[name := Log([])]),
       proc := Up(m.(am := am, fd := name), BootOpen))
  }

  function BootPersistStep<D, C>(s: State<D, C>, ok: bool, gc: bool): State<D, C>
    requires s.proc.Up?
  {
    var m := s.proc.mem;
    if !ok && m.am.dirty then s.(proc := Down)
    else s.(disk := Persist(s.disk, m.am),
            proc := Up(m.(am := m.am.(dirty := false)), if gc && m.am.history != [] then Deleting else Running))
  }

  function CrashStep<D, C>(s: State<D, C>): State<D, C> {
    s.(proc := Down)
  }

  /** When an event can happen. */
  predicate Enabled<D, C>(s: State<D, C>, e: Event<C>) {
    match e
    case DoWrite(_) => s.proc.Up? && s.proc.pc.Running?
    case Flush => s.proc.Up? && s.proc.pc.Running?
    case RewriteBegin(_) => s.proc.Up? && s.proc.pc.Running? && s.proc.mem.child.None?
    case RewritePersist(_) => s.proc.Up? && s.proc.pc.Opening?
    case RewriteFork(_) => s.proc.Up? && s.proc.pc.Opened?
    case ChildFails => s.proc.Up? && s.proc.pc.Running? && s.proc.mem.child.Some?
    case ChildDone(_, _) => s.proc.Up? && s.proc.pc.Running? && s.proc.mem.child.Some?
    case DonePersist(_) => s.proc.Up? && s.proc.pc.Renamed?
    case DoneSwap(_) => s.proc.Up? && s.proc.pc.Committed?
    case DeleteStart => s.proc.Up? && s.proc.pc.Running? && s.proc.mem.am.history != []
    case DeleteOne => s.proc.Up? && s.proc.pc.Deleting? && s.proc.mem.am.history != []
    case DeletePersist(_) => s.proc.Up? && s.proc.pc.Deleting? && s.proc.mem.am.history == []
    case Crash => true
    case Boot => s.proc.Down?
    case BootMakeBase(_) => s.proc.Up? && s.proc.pc.Booted?
    case BootOpenIncr => s.proc.Up? && s.proc.pc.BootBase?
    case BootPersist(_, _) => s.proc.Up? && s.proc.pc.BootOpen?
  }

  function Apply<D, C>(sem: Semantics<D, C>, aof: string, s: State<D, C>, e: Event<C>): State<D, C>
    requires Enabled(s, e)
  {
    match e
    case DoWrite(w) => WriteStep(sem, s, w)
    case Flush => FlushStep(s)
    case RewriteBegin(ok) => RewriteBeginStep(aof, s, ok)
    case RewritePersist(ok) => RewritePersistStep(s, ok)
    case RewriteFork(ok) => RewriteForkStep(s, ok)
    case ChildFails => ChildFailsStep(s)
    case ChildDone(ok, rdb) => ChildDoneStep(aof, s, ok, rdb)
    case DonePersist(ok) => DonePersistStep(s, ok)
    case DoneSwap(gc) => DoneSwapStep(s, gc)
    case DeleteStart => DeleteStartStep(s)
    case DeleteOne => DeleteOneStep(s)
    case DeletePersist(ok) => DeletePersistStep(s, ok)
    case Crash => CrashStep(s)
    case Boot => BootStep(sem, s)
    case BootMakeBase(rdb) => BootMakeBaseStep(aof, s, rdb)
    case BootOpenIncr => BootOpenIncrStep(aof, s)
    case BootPersist(ok, gc) => BootPersistStep(s, ok, gc)
  }

  /** The states of a run; an event that cannot happen is passed over. */
  function Run<D, C>(sem: Semantics<D, C>, aof: string, s: State<D, C>, events: seq<Event<C>>): State<D, C>
    decreases events
  {
    if events == [] then s
    else Run(sem, aof, if Enabled(s, events[0]) then Apply(sem, aof, s, events[0]) else s, events[1..])
  }

  // ---------------------------------------------------------------- invariant

  /** am names the live files and they replay to flushed. */
  ghost predicate Matches<D, C>(sem: Semantics<D, C>, aof: string, files: Files<D, C>, am: Manifest, flushed: D) {
    && Tidy(aof, am)
    && LoadLive(sem, files, am) == Some(flushed)
    && LastIncr(am) in files && files[LastIncr(am)].Log?
  }

  ghost predicate DiskOk<D, C>(sem: Semantics<D, C>, aof: string, disk: Disk<D, C>, flushed: D) {
    && IsBaseName(aof)
    && if disk.manifest.None? then
         && flushed == sem.empty
         && (IncrName(aof, 1) in disk.files ==> disk.files[IncrName(aof, 1)] == Log([]))
       else
         && Load(disk.manifest.value).Ok?
         && Matches(sem, aof, disk.files, Load(disk.manifest.value).value, flushed)
  }

  /** Where a restart stands after the last INCR file. */
  ghost function Tail<D, C>(sem: Semantics<D, C>, files: Files<D, C>, am: Manifest): Cursor<D>
    requires am.incr != [] && LoadLive(sem, files, Prefix(am)).Some?
    requires LastIncr(am) in files && files[LastIncr(am)].Log?
  {
    Replay(sem, Cursor(LoadLive(sem, files, Prefix(am)).value, 0), files[LastIncr(am)].entries)
  }

  /** Memory names the same live files as the manifest on disk. */
  ghost predicate SameLive<D, C>(disk: Disk<D, C>, am: Manifest) {
    && disk.manifest.Some? && Load(disk.manifest.value).Ok?
    && am.base == Load(disk.manifest.value).value.base
    && am.incr == Load(disk.manifest.value).value.incr
  }

  /** The buffer is what is missing from the last INCR file. */
  ghost predicate BufferOk<D, C>(sem: Semantics<D, C>, files: Files<D, C>, m: Memory<D, C>)
    requires m.am.incr != [] && LoadLive(sem, files, Prefix(m.am)).Some?
    requires LastIncr(m.am) in files && files[LastIncr(m.am)].Log?
  {
    var c := Replay(sem, Tail(sem, files, m.am), m.buf);
    c.data == m.data && (m.selected.Some? ==> c.db == m.selected.value)
  }

  ghost predicate MemOk<D, C>(sem: Semantics<D, C>, aof: string, disk: Disk<D, C>, flushed: D, m: Memory<D, C>) {
    && DiskOk(sem, aof, disk, flushed) && SameLive(disk, m.am)
    && Matches(sem, aof, disk.files, m.am, flushed) && m.fd == LastIncr(m.am)
    && LoadLive(sem, disk.files, Prefix(m.am)).Some?
    && BufferOk(sem, disk.files, m)
    && (m.child.Some? ==> m.child == LoadLive(sem, disk.files, Prefix(m.am)))
  }

  /** Nothing is pending and the next command will start with SELECT. */
  predicate Quiet<D, C>(m: Memory<D, C>) {
    m.buf == [] && m.selected == None && m.child == None
  }

  ghost predicate PcOk<D, C>(sem: Semantics<D, C>, aof: string, disk: Disk<D, C>, flushed: D, m: Memory<D, C>, pc: Pc) {
    match pc
    case Running => MemOk(sem, aof, disk, flushed, m)
    case Deleting => MemOk(sem, aof, disk, flushed, m)
    case Opening(temp) =>
      && MemOk(sem, aof, disk, flushed, m) && Quiet(m)
      && temp == NewIncr(m.am, aof)
      && LastIncr(temp) in disk.files && disk.files[LastIncr(temp)] == Log([])
    case Opened(temp) =>
      && temp.incr != []
      && MemOk(sem, aof, disk, flushed, m.(am := temp, fd := LastIncr(temp))) && Quiet(m)
      && LoadLive(sem, disk.files, Prefix(temp)) == Some(flushed)
    case Renamed(temp, base) =>
      && MemOk(sem, aof, disk, flushed, m) && m.child.Some?
      && (temp == MarkRewritten(NewBase(m.am, aof, true)) || temp == MarkRewritten(NewBase(m.am, aof, false)))
      && base == temp.base.value.name
      && temp.base.value.name in disk.files && disk.files[temp.base.value.name] == Snapshot(m.child.value)
    case Committed(temp) => MemOk(sem, aof, disk, flushed, m.(am := temp, child := None))
    case Booted =>
      && m.data == flushed && Quiet(m) && ReadManifest(disk) == Some(m.am)
    case BootBase =>
      && m.data == flushed && Quiet(m)
      && if disk.manifest.Some? then ReadManifest(disk) == Some(m.am)
         else
           && (m.am == NewBase(EMPTY, aof, true) || m.am == NewBase(EMPTY, aof, false))
           && m.am.base.value.name in disk.files && disk.files[m.am.base.value.name] == Snapshot(flushed)
    case BootOpen =>
      && m.data == flushed && Quiet(m)
      && Matches(sem, aof, disk.files, m.am, flushed) && m.fd == LastIncr(m.am)
      && if disk.manifest.Some? then ReadManifest(disk) == Some(m.am) else m.am.dirty
  }

  ghost predicate Invariant<D, C>(sem: Semantics<D, C>, aof: string, s: State<D, C>) {
    var diskOk := DiskOk(sem, aof, s.disk, s.flushed);
    var pcOk := s.proc.Up? ==> PcOk(sem, aof, s.disk, s.flushed, s.proc.mem, s.proc.pc);
    diskOk && pcOk
  }

  /** The invariant is enough: a restart loads exactly what was flushed. */
  lemma RecoverFlushed<D, C>(sem: Semantics<D, C>, aof: string, s: State<D, C>)
    requires Invariant(sem, aof, s)
    ensures Recover(sem, s.disk) == Some(s.flushed)
  {
    if s.disk.manifest.None? {
      assert LiveNames(EMPTY) == [];
    }
  }

  // ------------------------------------------------- what changes are harmless

  lemma SameLiveLoads<D, C>(sem: Semantics<D, C>, files: Files<D, C>, am: Manifest, dm: Manifest)
    requires am.base == dm.base && am.incr == dm.incr
    ensures LoadLive(sem, files, am) == LoadLive(sem, files, dm) && LastIncr(am) == LastIncr(dm)
    ensures am.incr != [] ==> LoadLive(sem, files, Prefix(am)) == LoadLive(sem, files, Prefix(dm))
  {
    assert LiveNames(am) == LiveNames(dm);
  }

  /** Files that are not live can come and go. */
  lemma LiveFrame<D, C>(sem: Semantics<D, C>, f: Files<D, C>, g: Files<D, C>, am: Manifest)
    requires forall n :: n in LiveNames(am) ==> (n in f <==> n in g) && (n in f ==> f[n] == g[n])
    ensures LoadLive(sem, f, am) == LoadLive(sem, g, am)
    ensures am.incr != [] ==> LoadLive(sem, f, Prefix(am)) == LoadLive(sem, g, Prefix(am))
    ensures am.incr != [] ==> (LastIncr(am) in f <==> LastIncr(am) in g)
    ensures am.incr != [] && LastIncr(am) in f ==> f[LastIncr(am)] == g[LastIncr(am)]
  {
    LoadFrame(sem, f, g, LiveNames(am), sem.empty);
    if am.incr != [] {
      var names := LiveNames(am);
      assert names[|names| - 1] == LastIncr(am);
      assert LiveNames(Prefix(am)) == names[..|names| - 1];
      LoadFrame(sem, f, g, LiveNames(Prefix(am)), sem.empty);
    }
  }

  lemma DiskFrame<D, C>(sem: Semantics<D, C>, aof: string, disk: Disk<D, C>, g: Files<D, C>, flushed: D, am: Manifest)
    requires DiskOk(sem, aof, disk, flushed) && SameLive(disk, am)
    requires forall n :: n in LiveNames(am) ==> (n in disk.files <==> n in g) && (n in disk.files ==> disk.files[n] == g[n])
    ensures DiskOk(sem, aof, disk.(files := g), flushed)
  {
    var dm := Load(disk.manifest.value).value;
    assert LiveNames(am) == LiveNames(dm);
    LiveFrame(sem, disk.files, g, dm);
  }

  lemma MemFrame<D, C>(sem: Semantics<D, C>, aof: string, disk: Disk<D, C>, g: Files<D, C>, flushed: D, m: Memory<D, C>)
    requires MemOk(sem, aof, disk, flushed, m)
    requires forall n :: n in LiveNames(m.am) ==> (n in disk.files <==> n in g) && (n in disk.files ==> disk.files[n] == g[n])
    ensures MemOk(sem, aof, disk.(files := g), flushed, m)
  {
    DiskFrame(sem, aof, disk, g, flushed, m.am);
    LiveFrame(sem, disk.files, g, m.am);
  }

  /** Loading back a tidy manifest that was just persisted. */
  lemma ReadBack(aof: string, am: Manifest)
    requires Tidy(aof, am)
    ensures Load(Format(am)) == Ok(am.(dirty := false))
  {
    RoundTrip(am);
  }

  lemma PersistOk<D, C>(sem: Semantics<D, C>, aof: string, disk: Disk<D, C>, am: Manifest, flushed: D)
    requires Matches(sem, aof, disk.files, am, flushed) && am.dirty
    ensures DiskOk(sem, aof, Persist(disk, am), flushed) && SameLive(Persist(disk, am), am)
    ensures ReadManifest(Persist(disk, am)) == Some(am.(dirty := false))
  {
    ReadBack(aof, am);
    SameLiveLoads(sem, disk.files, am, am.(dirty := false));
  }

  /** Memory may forget history entries and clear its dirty flag. */
  lemma MemRelabel<D, C>(sem: Semantics<D, C>, aof: string, disk: Disk<D, C>, flushed: D, m: Memory<D, C>, am: Manifest)
    requires MemOk(sem, aof, disk, flushed, m)
    requires am.base == m.am.base && am.incr == m.am.incr && Tidy(aof, am)
    ensures MemOk(sem, aof, disk, flushed, m.(am := am))
  {
    SameLiveLoads(sem, disk.files, m.am, am);
  }

  lemma MemPersist<D, C>(sem: Semantics<D, C>, aof: string, disk: Disk<D, C>, flushed: D, m: Memory<D, C>)
    requires MemOk(sem, aof, disk, flushed, m) && m.am.dirty
    ensures MemOk(sem, aof, Persist(disk, m.am), flushed, m)
  {
    PersistOk(sem, aof, disk, m.am, flushed);
  }

  lemma MemFacts<D, C>(sem: Semantics<D, C>, aof: string, disk: Disk<D, C>, flushed: D, m: Memory<D, C>)
    requires MemOk(sem, aof, disk, flushed, m)
    ensures Tidy(aof, m.am) && DiskOk(sem, aof, disk, flushed)
  {}

  // ------------------------------------------------------- every event keeps it

  lemma WriteKeeps<D, C>(sem: Semantics<D, C>, aof: string, s: State<D, C>, w: Write<C>)
    requires Invariant(sem, aof, s) && Enabled(s, DoWrite(w))
    ensures Invariant(sem, aof, WriteStep(sem, s, w))
  {
    var m := s.proc.mem;
    var tail := Tail(sem, s.disk.files, m.am);
    var c := Replay(sem, tail, m.buf);
    ReplaySplits(sem, tail, m.buf, Fed(m.selected, w));
    FedExecutes(sem, c, m.selected, w);
  }

  /** Replaying what was fed does what the command did, in the right database. */
  lemma FedExecutes<D, C>(sem: Semantics<D, C>, c: Cursor<D>, selected: Option<nat>, w: Write<C>)
    requires selected.Some? ==> c.db == selected.value
    ensures var r := Replay(sem, c, Fed(selected, w));
            r.data == Execute(sem, c.data, w) && (w.In? ==> r.db == w.db) && (w.Free? ==> r.db == c.db)
  {
    match w {
      case Free(cmd) =>
      case In(db, cmd) =>
        if selected != Some(db) {
          var c' := c.(db := db);
          assert Fed(selected, w)[1..] == [Command(cmd)];
          assert Replay(sem, c', [Command(cmd)]) == Replay(sem, Step(sem, c', Command(cmd)), []);
        } else {
          assert Fed(selected, w) == [Command(cmd)];
        }
    }
  }

  lemma FlushKeeps<D, C>(sem: Semantics<D, C>, aof: string, s: State<D, C>)
    requires s.proc.Up? && MemOk(sem, aof, s.disk, s.flushed, s.proc.mem)
    ensures var t := FlushStep(s);
            && t.proc.Up? && t.proc.pc == s.proc.pc && t.proc.mem == s.proc.mem.(buf := [])
            && MemOk(sem, aof, t.disk, t.flushed, t.proc.mem) && t.flushed == s.proc.mem.data
  {
    var m, f := s.proc.mem, s.disk.files;
    var t := FlushStep(s);
    var g := t.disk.files;
    var dm := Load(s.disk.manifest.value).value;
    LastIncrOnce(aof, m.am);
    LoadFrame(sem, f, g, LiveNames(Prefix(m.am)), sem.empty);
    ReplaySplits(sem, Cursor(LoadLive(sem, f, Prefix(m.am)).value, 0), f[m.fd].entries, m.buf);
    LoadLast(sem, g, m.am);
    SameLiveLoads(sem, g, m.am, dm);
  }

  lemma NewIncrNotLive(aof: string, am: Manifest)
    requires Tidy(aof, am)
    ensures LastIncr(NewIncr(am, aof)) !in LiveNames(am)
  {
    NotLive(aof, am, LastIncr(NewIncr(am, aof)), am.incrSeq + 1);
  }

  lemma MemOpening<D, C>(sem: Semantics<D, C>, aof: string, disk: Disk<D, C>, flushed: D, m: Memory<D, C>)
    requires MemOk(sem, aof, disk, flushed, m)
    ensures var g := disk.files[LastIncr(NewIncr(m.am, aof)) := Log([])];
            MemOk(sem, aof, disk.(files := g), flushed, m)
  {
    NewIncrNotLive(aof, m.am);
    MemFrame(sem, aof, disk, disk.files[LastIncr(NewIncr(m.am, aof)) := Log([])], flushed, m);
  }

  lemma RewriteBeginKeeps<D, C>(sem: Semantics<D, C>, aof: string, s: State<D, C>, openOk: bool)
    requires Invariant(sem, aof, s) && Enabled(s, RewriteBegin(openOk))
    ensures Invariant(sem, aof, RewriteBeginStep(aof, s, openOk))
  {
    var s' := s.(proc := s.proc.(mem := s.proc.mem.(selected := None)));
    assert MemOk(sem, aof, s'.disk, s'.flushed, s'.proc.mem);
    FlushKeeps(sem, aof, s');
    var t := FlushStep(s');
    MemOpening(sem, aof, t.disk, t.flushed, t.proc.mem);
  }

  lemma NewIncrTidy(aof: string, am: Manifest)
    requires Tidy(aof, am)
    ensures Tidy(aof, NewIncr(am, aof))
  {
    NewIncrKeepsOrder(am, aof);
  }

  /** A new, empty INCR file at the end changes nothing that a restart loads. */
  lemma EmptyIncrMatches<D, C>(sem: Semantics<D, C>, aof: string, files: Files<D, C>, am: Manifest, flushed: D)
    requires Tidy(aof, am) && LoadLive(sem, files, am) == Some(flushed)
    requires LastIncr(NewIncr(am, aof)) in files && files[LastIncr(NewIncr(am, aof))] == Log([])
    ensures Matches(sem, aof, files, NewIncr(am, aof), flushed)
    ensures LoadLive(sem, files, Prefix(NewIncr(am, aof))) == Some(flushed)
  {
    var temp := NewIncr(am, aof);
    NewIncrTidy(aof, am);
    assert Prefix(temp).incr == am.incr;
    SameLiveLoads(sem, files, Prefix(temp), am);
    LoadLast(sem, files, temp);
  }

  /** The manifest with a new INCR file has been persisted, and nothing is pending. */
  lemma OpenedMem<D, C>(sem: Semantics<D, C>, aof: string, disk: Disk<D, C>, flushed: D, m: Memory<D, C>)
    requires MemOk(sem, aof, disk, flushed, m) && Quiet(m)
    requires LastIncr(NewIncr(m.am, aof)) in disk.files && disk.files[LastIncr(NewIncr(m.am, aof))] == Log([])
    ensures var temp := NewIncr(m.am, aof);
            var am := temp.(dirty := false);
            && am.incr != [] && MemOk(sem, aof, Persist(disk, temp), flushed, m.(am := am, fd := LastIncr(am)))
            && LoadLive(sem, Persist(disk, temp).files, Prefix(am)) == Some(flushed)
  {
    hide DiskOk;
    var temp := NewIncr(m.am, aof);
    var am := temp.(dirty := false);
    EmptyIncrMatches(sem, aof, disk.files, m.am, flushed);
    PersistOk(sem, aof, disk, temp, flushed);
    SameLiveLoads(sem, disk.files, temp, am);
    LoadLast(sem, disk.files, m.am);
  }

  lemma RewritePersistKeeps<D, C>(sem: Semantics<D, C>, aof: string, s: State<D, C>, ok: bool)
    requires Invariant(sem, aof, s) && Enabled(s, RewritePersist(ok))
    ensures Invariant(sem, aof, RewritePersistStep(s, ok))
  {
    hide DiskOk, Matches, SameLive, LoadLive, BufferOk, Persist, NewIncr, LastIncr, Format;
    if ok {
      var m, temp := s.proc.mem, s.proc.pc.temp;
      OpenedMem(sem, aof, s.disk, s.flushed, m);
      MemFacts(sem, aof, Persist(s.disk, temp), s.flushed, m.(am := temp.(dirty := false), fd := LastIncr(temp.(dirty := false))));
    }
  }

  lemma RewriteForkKeeps<D, C>(sem: Semantics<D, C>, aof: string, s: State<D, C>, ok: bool)
    requires Invariant(sem, aof, s) && Enabled(s, RewriteFork(ok))
    ensures Invariant(sem, aof, RewriteForkStep(s, ok))
  {
    LoadLast(sem, s.disk.files, s.proc.pc.temp);
  }

  lemma NewBaseNotLive(aof: string, am: Manifest, rdb: bool)
    requires Tidy(aof, am)
    ensures MarkRewritten(NewBase(am, aof, rdb)).base.value.name !in LiveNames(am)
  {
    NotLive(aof, am, BaseName(aof, am.baseSeq + 1, rdb), am.baseSeq + 1);
  }

  lemma ForgetChild<D, C>(sem: Semantics<D, C>, aof: string, disk: Disk<D, C>, flushed: D, m: Memory<D, C>)
    requires MemOk(sem, aof, disk, flushed, m)
    ensures MemOk(sem, aof, disk, flushed, m.(child := None))
  {
    hide DiskOk, SameLive, Matches, LoadLive, LastIncr, Prefix;
  }

  function RewrittenName(aof: string, am: Manifest, rdb: bool): (name: string)
    ensures MarkRewritten(NewBase(am, aof, rdb)).base.Some? && name == MarkRewritten(NewBase(am, aof, rdb)).base.value.name
  {
    BaseName(aof, am.baseSeq + 1, rdb)
  }

  lemma ChildDoneKeeps<D, C>(sem: Semantics<D, C>, aof: string, s: State<D, C>, renameOk: bool, rdb: bool)
    requires Invariant(sem, aof, s) && Enabled(s, ChildDone(renameOk, rdb))
    ensures Invariant(sem, aof, ChildDoneStep(aof, s, renameOk, rdb))
  {
    hide MemOk, DiskOk, Tidy, LiveNames, MarkRewritten, NewBase;
    var m := s.proc.mem;
    ForgetChild(sem, aof, s.disk, s.flushed, m);
    if renameOk {
      var g := s.disk.files[RewrittenName(aof, m.am, rdb) := Snapshot(m.child.value)];
      MemFacts(sem, aof, s.disk, s.flushed, m);
      NewBaseNotLive(aof, m.am, rdb);
      MemFrame(sem, aof, s.disk, g, s.flushed, m);
      MemFacts(sem, aof, s.disk.(files := g), s.flushed, m);
    }
  }

  lemma RewrittenTidy(aof: string, am: Manifest, rdb: bool)
    requires Tidy(aof, am)
    ensures Tidy(aof, MarkRewritten(NewBase(am, aof, rdb)))
  {
    hide BaseName, IncrName;
    var nb := NewBase(am, aof, rdb);
    NewBaseKeepsOrder(am, aof, rdb);
    MarkRewrittenKeepsOrder(nb);
    var temp := MarkRewritten(nb);
    forall i | 0 <= i < |temp.history|
      ensures Older(aof, temp, temp.history[i])
    {
      RewrittenOlder(aof, am, rdb, i);
    }
  }

  lemma RewrittenOlder(aof: string, am: Manifest, rdb: bool, i: nat)
    requires Tidy(aof, am) && i < |MarkRewritten(NewBase(am, aof, rdb)).history|
    ensures var temp := MarkRewritten(NewBase(am, aof, rdb)); Older(aof, temp, temp.history[i])
  {
    hide BaseName, IncrName;
    var temp := MarkRewritten(NewBase(am, aof, rdb));
    var last := |am.incr| - 1;
    if i < last {
      assert temp.history[i] == am.incr[i].(kind := 'h');
    } else if am.base.Some? && i == last {
      assert temp.history[i] == am.base.value.(kind := 'h');
    } else {
      var j := if am.base.Some? then i - last - 1 else i - last;
      assert temp.history[i] == am.history[j] && Older(aof, am, am.history[j]);
    }
  }

  /** The child's snapshot stands for the old base and all INCR files but the last. */
  lemma RewrittenMatches<D, C>(sem: Semantics<D, C>, aof: string, files: Files<D, C>, am: Manifest, rdb: bool, flushed: D, child: D)
    requires Matches(sem, aof, files, am, flushed) && LoadLive(sem, files, Prefix(am)) == Some(child)
    requires var b := BaseName(aof, am.baseSeq + 1, rdb); b in files && files[b] == Snapshot(child)
    ensures var temp := MarkRewritten(NewBase(am, aof, rdb));
            && Matches(sem, aof, files, temp, flushed)
            && LoadLive(sem, files, Prefix(temp)) == Some(child)
            && LastIncr(temp) == LastIncr(am)
  {
    var temp := MarkRewritten(NewBase(am, aof, rdb));
    RewrittenTidy(aof, am, rdb);
    var b := temp.base.value.name;
    assert LiveNames(Prefix(temp)) == [b];
    assert [b][1..] == [] && LoadNames(sem, files, [], child) == Some(child);
    assert LoadFile(sem, sem.empty, files[b]) == child;
    LoadLast(sem, files, temp);
    LoadLast(sem, files, am);
  }

  /** Committing the rewrite: memory goes on with the new manifest and the same buffer. */
  lemma MemCommit<D, C>(sem: Semantics<D, C>, aof: string, disk: Disk<D, C>, flushed: D, m: Memory<D, C>, rdb: bool)
    requires MemOk(sem, aof, disk, flushed, m) && m.child.Some?
    requires var b := BaseName(aof, m.am.baseSeq + 1, rdb); b in disk.files && disk.files[b] == Snapshot(m.child.value)
    ensures var temp := MarkRewritten(NewBase(m.am, aof, rdb));
            MemOk(sem, aof, Persist(disk, temp), flushed, m.(am := temp.(dirty := false), child := None))
  {
    var temp := MarkRewritten(NewBase(m.am, aof, rdb));
    RewrittenMatches(sem, aof, disk.files, m.am, rdb, flushed, m.child.value);
    PersistOk(sem, aof, disk, temp, flushed);
    SameLiveLoads(sem, disk.files, temp, temp.(dirty := false));
  }

  lemma DonePersistKeeps<D, C>(sem: Semantics<D, C>, aof: string, s: State<D, C>, ok: bool)
    requires Invariant(sem, aof, s) && Enabled(s, DonePersist(ok))
    ensures Invariant(sem, aof, DonePersistStep(s, ok))
  {
    hide MemOk, DiskOk, Tidy, LiveNames, MarkRewritten, NewBase, Persist;
    var m, temp := s.proc.mem, s.proc.pc.temp;
    var rdb := temp == MarkRewritten(NewBase(m.am, aof, true));
    assert s.proc.pc.base == RewrittenName(aof, m.am, rdb);
    if ok {
      MemCommit(sem, aof, s.disk, s.flushed, m, rdb);
      MemFacts(sem, aof, Persist(s.disk, temp), s.flushed, m.(am := temp.(dirty := false), child := None));
    } else {
      var g := s.disk.files - {s.proc.pc.base};
      MemFacts(sem, aof, s.disk, s.flushed, m);
      NewBaseNotLive(aof, m.am, rdb);
      MemFrame(sem, aof, s.disk, g, s.flushed, m);
      MemFacts(sem, aof, s.disk.(files := g), s.flushed, m);
      ForgetChild(sem, aof, s.disk.(files := g), s.flushed, m);
    }
  }

  lemma ShorterHistory(aof: string, am: Manifest)
    requires Tidy(aof, am) && am.history != []
    ensures Tidy(aof, am.(history := am.history[1..]))
  {
    var am' := am.(history := am.history[1..]);
    forall i | 0 <= i < |am'.history|
      ensures Older(aof, am', am'.history[i]) && InfoOk(am'.history[i], 'h')
    {
      assert am'.history[i] == am.history[i + 1] && Older(aof, am, am.history[i + 1]);
    }
  }

  lemma MemDelete<D, C>(sem: Semantics<D, C>, aof: string, disk: Disk<D, C>, flushed: D, m: Memory<D, C>)
    requires MemOk(sem, aof, disk, flushed, m) && m.am.history != []
    ensures MemOk(sem, aof, disk.(files := disk.files - {m.am.history[0].name}), flushed,
                  m.(am := m.am.(history := m.am.history[1..])))
  {
    var g := disk.files - {m.am.history[0].name};
    HistoryNotLive(aof, m.am, 0);
    MemFrame(sem, aof, disk, g, flushed, m);
    ShorterHistory(aof, m.am);
    MemRelabel(sem, aof, disk.(files := g), flushed, m, m.am.(history := m.am.history[1..]));
  }

  lemma DeleteOneKeeps<D, C>(sem: Semantics<D, C>, aof: string, s: State<D, C>)
    requires Invariant(sem, aof, s) && Enabled(s, DeleteOne)
    ensures Invariant(sem, aof, DeleteOneStep(s))
  {
    MemDelete(sem, aof, s.disk, s.flushed, s.proc.mem);
  }

  lemma TidyClean<D, C>(sem: Semantics<D, C>, aof: string, disk: Disk<D, C>, flushed: D, m: Memory<D, C>)
    requires MemOk(sem, aof, disk, flushed, m)
    ensures forall d: bool {:trigger m.am.(dirty := d)} :: Tidy(aof, m.am.(dirty := d))
  {
    hide DiskOk, LoadLive, BufferOk, SameLive;
  }

  lemma MemSave<D, C>(sem: Semantics<D, C>, aof: string, disk: Disk<D, C>, flushed: D, m: Memory<D, C>)
    requires MemOk(sem, aof, disk, flushed, m)
    ensures MemOk(sem, aof, disk, flushed, m.(am := m.am.(dirty := true)))
    ensures MemOk(sem, aof, Persist(disk, m.am.(dirty := true)), flushed, m.(am := m.am.(dirty := false)))
  {
    TidyClean(sem, aof, disk, flushed, m);
    hide MemOk, Tidy, Persist;
    var am := m.am.(dirty := true);
    MemRelabel(sem, aof, disk, flushed, m, am);
    MemPersist(sem, aof, disk, flushed, m.(am := am));
    MemRelabel(sem, aof, Persist(disk, am), flushed, m.(am := am), am.(dirty := false));
    assert am.(dirty := false) == m.am.(dirty := false);
  }

  lemma DeletePersistKeeps<D, C>(sem: Semantics<D, C>, aof: string, s: State<D, C>, ok: bool)
    requires Invariant(sem, aof, s) && Enabled(s, DeletePersist(ok))
    ensures Invariant(sem, aof, DeletePersistStep(s, ok))
  {
    MemSave(sem, aof, s.disk, s.flushed, s.proc.mem);
  }

  lemma BootKeeps<D, C>(sem: Semantics<D, C>, aof: string, s: State<D, C>)
    requires Invariant(sem, aof, s) && Enabled(s, Boot)
    ensures Invariant(sem, aof, BootStep(sem, s)) && BootStep(sem, s).proc.Up?
  {
    RecoverFlushed(sem, aof, s);
  }

  lemma FirstBase<D, C>(sem: Semantics<D, C>, aof: string, disk: Disk<D, C>, flushed: D, name: string, f: File<D, C>)
    requires DiskOk(sem, aof, disk, flushed) && disk.manifest.None? && name != IncrName(aof, 1)
    ensures DiskOk(sem, aof, disk.(files := disk.files[name := f]), flushed) && ReadManifest(disk) == Some(EMPTY)
  {}

  lemma LiveManifest<D, C>(sem: Semantics<D, C>, aof: string, disk: Disk<D, C>, flushed: D)
    requires DiskOk(sem, aof, disk, flushed) && disk.manifest.Some?
    ensures ReadManifest(disk).Some? && ReadManifest(disk).value.incr != []
    ensures Matches(sem, aof, disk.files, ReadManifest(disk).value, flushed) && LastIncr(ReadManifest(disk).value) in disk.files
  {}

  lemma BootMakeBaseKeeps<D, C>(sem: Semantics<D, C>, aof: string, s: State<D, C>, rdb: bool)
    requires Invariant(sem, aof, s) && Enabled(s, BootMakeBase(rdb))
    ensures Invariant(sem, aof, BootMakeBaseStep(aof, s, rdb))
  {
    hide DiskOk, ReadManifest, MemOk, Matches, LoadLive, BaseName, IncrName;
    var m := s.proc.mem;
    BaseIsNotIncr(aof, 1, rdb, 1);
    if s.disk.manifest.None? {
      FirstBase(sem, aof, s.disk, s.flushed, BaseName(aof, 1, rdb), Snapshot(m.data));
    } else {
      LiveManifest(sem, aof, s.disk, s.flushed);
    }
  }

  /** A fresh base and a fresh INCR file hold the dataset the server started with. */
  lemma FirstFilesMatch<D, C>(sem: Semantics<D, C>, aof: string, files: Files<D, C>, rdb: bool, flushed: D)
    requires IsBaseName(aof)
    requires BaseName(aof, 1, rdb) in files && files[BaseName(aof, 1, rdb)] == Snapshot(flushed)
    requires IncrName(aof, 1) in files && files[IncrName(aof, 1)] == Log([])
    ensures Matches(sem, aof, files, NewIncr(NewBase(EMPTY, aof, rdb), aof), flushed)
  {
    var am := NewIncr(NewBase(EMPTY, aof, rdb), aof);
    NewBaseKeepsOrder(EMPTY, aof, rdb);
    NewIncrKeepsOrder(NewBase(EMPTY, aof, rdb), aof);
    var b := BaseName(aof, 1, rdb);
    assert LiveNames(Prefix(am)) == [b];
    assert [b][1..] == [] && LoadNames(sem, files, [], flushed) == Some(flushed);
    assert LoadFile(sem, sem.empty, files[b]) == flushed;
    LoadLast(sem, files, am);
  }

  lemma FirstIncr<D, C>(sem: Semantics<D, C>, aof: string, disk: Disk<D, C>, flushed: D)
    requires DiskOk(sem, aof, disk, flushed) && disk.manifest.None?
    ensures IsBaseName(aof) && (IncrName(aof, 1) in disk.files ==> disk.files[IncrName(aof, 1)] == Log([]))
    ensures DiskOk(sem, aof, disk.(files := disk.files[IncrName(aof, 1) := Log([])]), flushed)
  {}

  lemma BootOpenIncrKeeps<D, C>(sem: Semantics<D, C>, aof: string, s: State<D, C>)
    requires Invariant(sem, aof, s) && Enabled(s, BootOpenIncr)
    ensures Invariant(sem, aof, BootOpenIncrStep(aof, s))
  {
    hide DiskOk, ReadManifest, MemOk, Matches, LoadLive, BaseName, IncrName;
    var t := BootOpenIncrStep(aof, s);
    if s.disk.manifest.None? {
      var rdb := s.proc.mem.am == NewBase(EMPTY, aof, true);
      BaseIsNotIncr(aof, 1, rdb, 1);
      FirstIncr(sem, aof, s.disk, s.flushed);
      FirstFilesMatch(sem, aof, t.disk.files, rdb, s.flushed);
    } else {
      LiveManifest(sem, aof, s.disk, s.flushed);
    }
  }

  /** A freshly loaded server: nothing is pending, and the files hold its dataset. */
  lemma BootedMem<D, C>(sem: Semantics<D, C>, aof: string, disk: Disk<D, C>, flushed: D, m: Memory<D, C>)
    requires DiskOk(sem, aof, disk, flushed) && SameLive(disk, m.am) && Matches(sem, aof, disk.files, m.am, flushed)
    requires m.data == flushed && Quiet(m) && m.fd == LastIncr(m.am)
    ensures MemOk(sem, aof, disk, flushed, m.(am := m.am.(dirty := false)))
  {
    hide DiskOk, Tidy;
    var am := m.am.(dirty := false);
    TidyWritten(aof, m.am);
    SameLiveLoads(sem, disk.files, m.am, am);
    LoadLast(sem, disk.files, am);
  }

  lemma TidyWritten(aof: string, am: Manifest)
    requires Tidy(aof, am)
    ensures am.incr != [] && Tidy(aof, am.(dirty := false))
  {}

  lemma BootedSame<D, C>(sem: Semantics<D, C>, aof: string, disk: Disk<D, C>, flushed: D, m: Memory<D, C>)
    requires DiskOk(sem, aof, disk, flushed) && disk.manifest.Some? && ReadManifest(disk) == Some(m.am) && !m.am.dirty
    requires Matches(sem, aof, disk.files, m.am, flushed) && m.data == flushed && Quiet(m) && m.fd == LastIncr(m.am)
    ensures MemOk(sem, aof, Persist(disk, m.am), flushed, m.(am := m.am.(dirty := false)))
  {
    hide DiskOk, Matches, MemOk;
    BootedMem(sem, aof, disk, flushed, m);
  }

  lemma BootPersistKeeps<D, C>(sem: Semantics<D, C>, aof: string, s: State<D, C>, ok: bool, gc: bool)
    requires Invariant(sem, aof, s) && Enabled(s, BootPersist(ok, gc))
    ensures Invariant(sem, aof, BootPersistStep(s, ok, gc))
  {
    hide MemOk, DiskOk, Matches, SameLive, LoadLive;
    var m := s.proc.mem;
    if m.am.dirty {
      if ok {
        PersistOk(sem, aof, s.disk, m.am, s.flushed);
        BootedMem(sem, aof, Persist(s.disk, m.am), s.flushed, m);
      }
    } else {
      BootedSame(sem, aof, s.disk, s.flushed, m);
    }
  }

  lemma CrashKeeps<D, C>(sem: Semantics<D, C>, aof: string, s: State<D, C>)
    requires Invariant(sem, aof, s)
    ensures Invariant(sem, aof, CrashStep(s))
  {}

  lemma ChildFailsKeeps<D, C>(sem: Semantics<D, C>, aof: string, s: State<D, C>)
    requires Invariant(sem, aof, s) && Enabled(s, ChildFails)
    ensures Invariant(sem, aof, ChildFailsStep(s))
  {}

  lemma DoneSwapKeeps<D, C>(sem: Semantics<D, C>, aof: string, s: State<D, C>, gc: bool)
    requires Invariant(sem, aof, s) && Enabled(s, DoneSwap(gc))
    ensures Invariant(sem, aof, DoneSwapStep(s, gc))
  {}

  lemma DeleteStartKeeps<D, C>(sem: Semantics<D, C>, aof: string, s: State<D, C>)
    requires Invariant(sem, aof, s) && Enabled(s, DeleteStart)
    ensures Invariant(sem, aof, DeleteStartStep(s))
  {}

  lemma FlushEventKeeps<D, C>(sem: Semantics<D, C>, aof: string, s: State<D, C>)
    requires Invariant(sem, aof, s) && Enabled(s, Flush)
    ensures Invariant(sem, aof, FlushStep(s))
  {
    hide FlushStep;
    FlushKeeps(sem, aof, s);
  }

  lemma EventKeeps<D, C>(sem: Semantics<D, C>, aof: string, s: State<D, C>, e: Event<C>)
    requires Invariant(sem, aof, s) && Enabled(s, e)
    ensures Invariant(sem, aof, Apply(sem, aof, s, e))
  {
    hide Invariant, Enabled, WriteStep, FlushStep, RewriteBeginStep, RewritePersistStep, RewriteForkStep, ChildFailsStep,
         ChildDoneStep, DonePersistStep, DoneSwapStep, DeleteStartStep, DeleteOneStep, DeletePersistStep,
         CrashStep, BootStep, BootMakeBaseStep, BootOpenIncrStep, BootPersistStep;
    match e {
      case DoWrite(w) => WriteKeeps(sem, aof, s, w);
      case Flush => FlushEventKeeps(sem, aof, s);
      case RewriteBegin(ok) => RewriteBeginKeeps(sem, aof, s, ok);
      case RewritePersist(ok) => RewritePersistKeeps(sem, aof, s, ok);
      case RewriteFork(ok) => RewriteForkKeeps(sem, aof, s, ok);
      case ChildFails => ChildFailsKeeps(sem, aof, s);
      case ChildDone(ok, rdb) => ChildDoneKeeps(sem, aof, s, ok, rdb);
      case DonePersist(ok) => DonePersistKeeps(sem, aof, s, ok);
      case DoneSwap(gc) => DoneSwapKeeps(sem, aof, s, gc);
      case DeleteStart => DeleteStartKeeps(sem, aof, s);
      case DeleteOne => DeleteOneKeeps(sem, aof, s);
      case DeletePersist(ok) => DeletePersistKeeps(sem, aof, s, ok);
      case Crash => CrashKeeps(sem, aof, s);
      case Boot => BootKeeps(sem, aof, s);
      case BootMakeBase(rdb) => BootMakeBaseKeeps(sem, aof, s, rdb);
      case BootOpenIncr => BootOpenIncrKeeps(sem, aof, s);
      case BootPersist(ok, gc) => BootPersistKeeps(sem, aof, s, ok, gc);
    }
  }

  /** An empty directory and no process. */
  function Initial<D, C>(sem: Semantics<D, C>): State<D, C> {
    State(Disk(None, map[]), sem.empty, Down)
  }

  lemma InitialOk<D, C>(sem: Semantics<D, C>, aof: string)
    requires IsBaseName(aof)
    ensures Invariant(sem, aof, Initial(sem))
  {}

  lemma {:induction false} RunKeeps<D, C>(sem: Semantics<D, C>, aof: string, s: State<D, C>, events: seq<Event<C>>)
    requires Invariant(sem, aof, s)
    ensures Invariant(sem, aof, Run(sem, aof, s, events))
    decreases events
  {
    hide Invariant, Apply, Enabled;
    if events != [] {
      if Enabled(s, events[0]) {
        EventKeeps(sem, aof, s, events[0]);
        RunKeeps(sem, aof, Apply(sem, aof, s, events[0]), events[1..]);
      } else {
        RunKeeps(sem, aof, s, events[1..]);
      }
    }
  }

  /**
    Whatever the interleaving of writes, flushes, rewrites, failures, history
    deletions, crashes and restarts: what a restart would load is what was flushed.
  */
  lemma CrashSafety<D, C>(sem: Semantics<D, C>, aof: string, events: seq<Event<C>>)
    requires IsBaseName(aof)
    ensures var s := Run(sem, aof, Initial(sem), events); Recover(sem, s.disk) == Some(s.flushed)
  {
    hide Run, Invariant, Recover;
    InitialOk(sem, aof);
    RunKeeps(sem, aof, Initial(sem), events);
    RecoverFlushed(sem, aof, Run(sem, aof, Initial(sem), events));
  }
}
