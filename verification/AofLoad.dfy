/**
  Loading an append-only file (src/aof.c, loadSingleAppendOnlyFile): which commands
  take effect, and where the file is cut when it ends too early.

  The theorems hold for any encoding `enc` and reader `read` that fit together in
  the sense of `Faithful`; the last section instantiates them with the real ones.
*/
module AofLoad {
  import opened AofCodec

  // -------------------------------------------------------------------- loading

  datatype Proc = MultiCommand | ExecCommand | OtherCommand

  /** What lookupCommand says of a command: whether it exists, and its procedure. */
  datatype CommandTable = CommandTable(known: Command -> bool, proc: Command -> Proc) {
    predicate IsMulti(c: Command) {
      proc(c).MultiCommand?
    }

    predicate IsExec(c: Command) {
      proc(c).ExecCommand?
    }
  }

  /**
    done: the commands that took effect; queue: those waiting for EXEC, when the
    client is inside MULTI; the two offsets are valid_up_to and valid_before_multi.
  */
  datatype Loader = Loader(done: seq<Command>, queue: seq<Command>, multi: bool, validUpTo: nat, validBeforeMulti: nat)

  const START := Loader([], [], false, 0, 0)

  /** One whole command, which ended at offset end. */
  function Process(t: CommandTable, ld: Loader, c: Command, end: nat, loadTruncated: bool): Loader {
    var ld1 := if t.IsMulti(c) then ld.(validBeforeMulti := ld.validUpTo) else ld;
    var ld2 :=
      if ld.multi && !t.IsExec(c) then ld1.(queue := ld.queue + [c])
      else if ld.multi then ld1.(done := ld.done + ld.queue, queue := [], multi := false)
      else if t.IsMulti(c) then ld1.(multi := true)
      else ld1.(done := ld.done + [c]);
    if loadTruncated then ld2.(validUpTo := end) else ld2
  }

  datatype Outcome = Loaded(done: seq<Command>) | TruncatedTo(done: seq<Command>, offset: nat) | Failed | Empty | Aborted

  /** The label uxeof. */
  function UnexpectedEof(ld: Loader, loadTruncated: bool): Outcome {
    if loadTruncated then TruncatedTo(ld.done, ld.validUpTo) else Failed
  }

  /** End of file between two commands. */
  function CleanEof(ld: Loader, loadTruncated: bool): Outcome {
    if ld.multi then UnexpectedEof(ld.(validUpTo := ld.validBeforeMulti), loadTruncated) else Loaded(ld.done)
  }

  /** The reading loop on the rest s of the file, which starts at offset pos. */
  function LoadFrom(read: Reader, t: CommandTable, s: string, pos: nat, ld: Loader, loadTruncated: bool): Outcome
    decreases |s|
  {
    match read(s)
    case Eof => CleanEof(ld, loadTruncated)
    case Annotation(used) => LoadFrom(read, t, s[used..], pos + used, ld, loadTruncated)
    case Bad => Failed
    case Abort => Aborted
    case Short => UnexpectedEof(ld, loadTruncated)
    case Whole(c, used) =>
      if !t.known(c) then Failed
      else LoadFrom(read, t, s[used..], pos + used, Process(t, ld, c, pos + used, loadTruncated), loadTruncated)
  }

  function Load(read: Reader, t: CommandTable, f: string, loadTruncated: bool): Outcome {
    if f == "" then Empty else LoadFrom(read, t, f, 0, START, loadTruncated)
  }

  /** loadSingleAppendOnlyFile on a file that is not in RDB format. */
  method LoadSingleAppendOnlyFile(read: Reader, t: CommandTable, f: string, loadTruncated: bool) returns (r: Outcome)
    ensures r == Load(read, t, f, loadTruncated)
  {
    if |f| == 0 {
      return Empty;
    }
    var rest, pos, ld := f, 0, START;
    while true
      invariant LoadFrom(read, t, rest, pos, ld, loadTruncated) == LoadFrom(read, t, f, 0, START, loadTruncated)
      decreases |rest|
    {
      match read(rest)
      case Eof =>
        return CleanEof(ld, loadTruncated);
      case Annotation(used) =>
        rest, pos := rest[used..], pos + used;
      case Bad =>
        return Failed;
      case Abort =>
        return Aborted;
      case Short =>
        return UnexpectedEof(ld, loadTruncated);
      case Whole(argv, used) =>
        if !t.known(argv) {
          return Failed;
        }
        rest, pos := rest[used..], pos + used;
        ld := Process(t, ld, argv, pos, loadTruncated);
    }
  }

  // ------------------------------------------------------------------- theorems

  /** The file that holds cmds. */
  function Stream(enc: Command -> string, cmds: seq<Command>): string {
    if cmds == [] then "" else enc(cmds[0]) + Stream(enc, cmds[1..])
  }

  lemma {:induction false} StreamSplits(enc: Command -> string, a: seq<Command>, b: seq<Command>)
    ensures Stream(enc, a + b) == Stream(enc, a) + Stream(enc, b)
  {
    if a == [] {
      assert a + b == b;
    } else {
      assert (a + b)[1..] == a[1..] + b;
      StreamSplits(enc, a[1..], b);
    }
  }

  /** What the reader makes of an encoded command: itself when whole, a short read when cut. */
  ghost predicate Faithful(enc: Command -> string, read: Reader, ok: Command -> bool) {
    && read("") == Eof
    && (forall c: Command, rest: string {:trigger enc(c) + rest} ::
          ok(c) ==> enc(c) != "" && read(enc(c) + rest) == Whole(c, |enc(c)|))
    && (forall c: Command, k: nat {:trigger enc(c)[..k]} ::
          ok(c) && 0 < k < |enc(c)| ==> read(enc(c)[..k]) == Short)
  }

  /** Commands that can be written and that the server still knows. */
  ghost predicate Writable(ok: Command -> bool, t: CommandTable, cmds: seq<Command>) {
    forall i :: 0 <= i < |cmds| ==> ok(cmds[i]) && t.known(cmds[i])
  }

  function ProcessAll(enc: Command -> string, t: CommandTable, ld: Loader, cmds: seq<Command>, pos: nat, lt: bool): Loader
    decreases cmds
  {
    if cmds == [] then ld
    else
      var end := pos + |enc(cmds[0])|;
      ProcessAll(enc, t, Process(t, ld, cmds[0], end, lt), cmds[1..], end, lt)
  }

  lemma LoadOne(enc: Command -> string, read: Reader, ok: Command -> bool,
                t: CommandTable, c: Command, rest: string, pos: nat, ld: Loader, lt: bool)
    requires Faithful(enc, read, ok) && ok(c) && t.known(c)
    ensures var end := pos + |enc(c)|;
            LoadFrom(read, t, enc(c) + rest, pos, ld, lt) == LoadFrom(read, t, rest, end, Process(t, ld, c, end, lt), lt)
  {
    hide Process;
    assert (enc(c) + rest)[|enc(c)|..] == rest;
  }

  /** Whole commands are processed in order, each at its own end offset. */
  lemma {:induction false} LoadCommands(enc: Command -> string, read: Reader, ok: Command -> bool,
                                        t: CommandTable, cmds: seq<Command>, tail: string, pos: nat, ld: Loader, lt: bool)
    requires Faithful(enc, read, ok) && Writable(ok, t, cmds)
    ensures LoadFrom(read, t, Stream(enc, cmds) + tail, pos, ld, lt)
         == LoadFrom(read, t, tail, pos + |Stream(enc, cmds)|, ProcessAll(enc, t, ld, cmds, pos, lt), lt)
    decreases cmds
  {
    hide LoadFrom, Process, Faithful;
    if cmds == [] {
      assert Stream(enc, cmds) + tail == tail;
    } else {
      var c, rest := cmds[0], Stream(enc, cmds[1..]) + tail;
      assert Stream(enc, cmds) + tail == enc(c) + rest;
      var end := pos + |enc(c)|;
      LoadOne(enc, read, ok, t, c, rest, pos, ld, lt);
      LoadCommands(enc, read, ok, t, cmds[1..], tail, end, Process(t, ld, c, end, lt), lt);
    }
  }

  lemma {:induction false} ProcessAllSplits(enc: Command -> string, t: CommandTable, ld: Loader,
                                            a: seq<Command>, b: seq<Command>, pos: nat, lt: bool)
    ensures ProcessAll(enc, t, ld, a + b, pos, lt)
         == ProcessAll(enc, t, ProcessAll(enc, t, ld, a, pos, lt), b, pos + |Stream(enc, a)|, lt)
    decreases a
  {
    if a == [] {
      assert a + b == b;
    } else {
      assert (a + b)[1..] == a[1..] + b;
      var end := pos + |enc(a[0])|;
      ProcessAllSplits(enc, t, Process(t, ld, a[0], end, lt), a[1..], b, end, lt);
    }
  }

  /** The loader after a whole file of commands, with aof-load-truncated on. */
  function After(enc: Command -> string, t: CommandTable, cmds: seq<Command>): Loader {
    ProcessAll(enc, t, START, cmds, 0, true)
  }

  lemma AfterSnoc(enc: Command -> string, t: CommandTable, cmds: seq<Command>)
    requires cmds != []
    ensures var n := |cmds| - 1;
            After(enc, t, cmds) == Process(t, After(enc, t, cmds[..n]), cmds[n], |Stream(enc, cmds)|, true)
  {
    var n := |cmds| - 1;
    assert cmds == cmds[..n] + [cmds[n]];
    ProcessAllSplits(enc, t, START, cmds[..n], [cmds[n]], 0, true);
    StreamSplits(enc, cmds[..n], [cmds[n]]);
    assert Stream(enc, [cmds[n]]) == enc(cmds[n]);
  }

  lemma {:induction false} AfterValid(enc: Command -> string, t: CommandTable, cmds: seq<Command>)
    ensures After(enc, t, cmds).validUpTo == |Stream(enc, cmds)|
  {
    if cmds != [] {
      AfterSnoc(enc, t, cmds);
    }
  }

  ghost predicate NoMulti(t: CommandTable, cmds: seq<Command>) {
    forall i :: 0 <= i < |cmds| ==> !t.IsMulti(cmds[i])
  }

  ghost predicate Plain(t: CommandTable, cmds: seq<Command>) {
    forall i :: 0 <= i < |cmds| ==> !t.IsMulti(cmds[i]) && !t.IsExec(cmds[i])
  }

  /** No transactions: every command takes effect, in order. */
  lemma {:induction false} PlainDone(enc: Command -> string, t: CommandTable, ld: Loader, cmds: seq<Command>, pos: nat, lt: bool)
    requires !ld.multi && NoMulti(t, cmds)
    ensures var r := ProcessAll(enc, t, ld, cmds, pos, lt); !r.multi && r.done == ld.done + cmds
    decreases cmds
  {
    if cmds == [] {
      assert ld.done + cmds == ld.done;
    } else {
      var end := pos + |enc(cmds[0])|;
      PlainDone(enc, t, Process(t, ld, cmds[0], end, lt), cmds[1..], end, lt);
      assert ld.done + [cmds[0]] + cmds[1..] == ld.done + cmds;
    }
  }

  /** Inside a transaction nothing takes effect. */
  lemma {:induction false} QueuedDone(enc: Command -> string, t: CommandTable, ld: Loader, cmds: seq<Command>, pos: nat, lt: bool)
    requires ld.multi && Plain(t, cmds)
    ensures var r := ProcessAll(enc, t, ld, cmds, pos, lt);
            r.multi && r.done == ld.done && r.validBeforeMulti == ld.validBeforeMulti
    decreases cmds
  {
    if cmds != [] {
      var end := pos + |enc(cmds[0])|;
      QueuedDone(enc, t, Process(t, ld, cmds[0], end, lt), cmds[1..], end, lt);
    }
  }

  /** A whole file ends in whatever state its commands leave. */
  lemma LoadWholeFile(enc: Command -> string, read: Reader, ok: Command -> bool, t: CommandTable, cmds: seq<Command>, lt: bool)
    requires Faithful(enc, read, ok) && Writable(ok, t, cmds) && cmds != []
    ensures Load(read, t, Stream(enc, cmds), lt) == CleanEof(ProcessAll(enc, t, START, cmds, 0, lt), lt)
  {
    LoadCommands(enc, read, ok, t, cmds, "", 0, START, lt);
    assert Stream(enc, cmds) + "" == Stream(enc, cmds);
    assert enc(cmds[0]) + "" == enc(cmds[0]);
  }

  /** Decoding an encoded stream gives back the stream. */
  lemma RoundTrip(enc: Command -> string, read: Reader, ok: Command -> bool, t: CommandTable, cmds: seq<Command>, lt: bool)
    requires Faithful(enc, read, ok) && Writable(ok, t, cmds) && cmds != [] && NoMulti(t, cmds)
    ensures Load(read, t, Stream(enc, cmds), lt) == Loaded(cmds)
  {
    LoadWholeFile(enc, read, ok, t, cmds, lt);
    PlainDone(enc, t, START, cmds, 0, lt);
    assert [] + cmds == cmds;
  }

  /** The number of whole commands in the first k bytes. */
  function WholeCount(enc: Command -> string, cmds: seq<Command>, k: nat): (j: nat)
    ensures j <= |cmds|
    decreases cmds
  {
    if cmds == [] || k < |enc(cmds[0])| then 0 else 1 + WholeCount(enc, cmds[1..], k - |enc(cmds[0])|)
  }

  /** A prefix is its whole commands and a proper prefix of the next one. */
  lemma {:induction false} PrefixShape(enc: Command -> string, cmds: seq<Command>, k: nat)
    requires k <= |Stream(enc, cmds)|
    ensures var j := WholeCount(enc, cmds, k);
            var start := |Stream(enc, cmds[..j])|;
            && start <= k
            && (j < |cmds| ==> k < start + |enc(cmds[j])|)
            && (j < |cmds| ==> Stream(enc, cmds)[..k] == Stream(enc, cmds[..j]) + enc(cmds[j])[..k - start])
            && (j == |cmds| ==> k == start)
    decreases cmds
  {
    if cmds == [] || k < |enc(cmds[0])| {
      assert Stream(enc, cmds[..0]) == "";
      if cmds != [] {
        assert Stream(enc, cmds)[..k] == enc(cmds[0])[..k];
      }
    } else {
      var first, rest := enc(cmds[0]), cmds[1..];
      PrefixShape(enc, rest, k - |first|);
      var j := WholeCount(enc, rest, k - |first|);
      assert cmds[..j + 1] == [cmds[0]] + rest[..j];
      assert Stream(enc, cmds[..j + 1]) == first + Stream(enc, rest[..j]);
      assert Stream(enc, cmds)[..k] == first + Stream(enc, rest)[..k - |first|];
    }
  }

  /**
    A file cut anywhere, with aof-load-truncated on: exactly the whole commands are
    processed, and unless the cut is between two commands the file is cut back to
    the end of the last whole one.
  */
  lemma PrefixLoads(enc: Command -> string, read: Reader, ok: Command -> bool, t: CommandTable, cmds: seq<Command>, k: nat)
    requires Faithful(enc, read, ok) && Writable(ok, t, cmds) && 0 < k <= |Stream(enc, cmds)|
    ensures var whole := cmds[..WholeCount(enc, cmds, k)];
            Load(read, t, Stream(enc, cmds)[..k], true) ==
            if k == |Stream(enc, whole)| then CleanEof(After(enc, t, whole), true)
            else TruncatedTo(After(enc, t, whole).done, |Stream(enc, whole)|)
  {
    var whole := cmds[..WholeCount(enc, cmds, k)];
    hide *;
    WritablePrefix(ok, t, cmds, |whole|);
    var tail := CutTail(enc, read, ok, cmds, k);
    LoadWithTail(enc, read, ok, t, whole, tail);
  }

  lemma LoadWithTail(enc: Command -> string, read: Reader, ok: Command -> bool, t: CommandTable, whole: seq<Command>, tail: string)
    requires Faithful(enc, read, ok) && Writable(ok, t, whole) && Stream(enc, whole) + tail != ""
    requires read(tail).Eof? || read(tail).Short?
    ensures Load(read, t, Stream(enc, whole) + tail, true) ==
            if read(tail).Eof? then CleanEof(After(enc, t, whole), true)
            else TruncatedTo(After(enc, t, whole).done, |Stream(enc, whole)|)
  {
    hide Process, Stream, ProcessAll, LoadFrom, Faithful, Writable, CleanEof;
    LoadCommands(enc, read, ok, t, whole, tail, 0, START, true);
    AfterValid(enc, t, whole);
    LoadEnds(read, t, tail, |Stream(enc, whole)|, After(enc, t, whole));
  }

  lemma WritablePrefix(ok: Command -> bool, t: CommandTable, cmds: seq<Command>, n: nat)
    requires Writable(ok, t, cmds) && n <= |cmds|
    ensures Writable(ok, t, cmds[..n]) && forall i :: 0 <= i < |cmds| ==> ok(cmds[i])
  {}

  lemma LoadEnds(read: Reader, t: CommandTable, tail: string, pos: nat, ld: Loader)
    requires read(tail).Eof? || read(tail).Short?
    ensures LoadFrom(read, t, tail, pos, ld, true)
         == if read(tail).Eof? then CleanEof(ld, true) else TruncatedTo(ld.done, ld.validUpTo)
  {}

  /** With aof-load-truncated off a cut file loads only if the cut is between two commands and outside of a transaction. */
  lemma StrictPrefix(enc: Command -> string, read: Reader, ok: Command -> bool, t: CommandTable, cmds: seq<Command>, k: nat)
    requires Faithful(enc, read, ok) && Writable(ok, t, cmds) && 0 < k <= |Stream(enc, cmds)|
    ensures var whole := cmds[..WholeCount(enc, cmds, k)];
            Load(read, t, Stream(enc, cmds)[..k], false) ==
            if k == |Stream(enc, whole)| && !InMulti(t, false, whole) then Loaded(Effects(t, false, [], whole)) else Failed
  {
    var whole := cmds[..WholeCount(enc, cmds, k)];
    hide *;
    WritablePrefix(ok, t, cmds, |whole|);
    var tail := CutTail(enc, read, ok, cmds, k);
    StrictTail(enc, read, ok, t, whole, tail);
  }

  lemma StrictTail(enc: Command -> string, read: Reader, ok: Command -> bool, t: CommandTable, whole: seq<Command>, tail: string)
    requires Faithful(enc, read, ok) && Writable(ok, t, whole) && Stream(enc, whole) + tail != ""
    requires read(tail).Eof? || read(tail).Short?
    ensures Load(read, t, Stream(enc, whole) + tail, false) ==
            if read(tail).Eof? && !InMulti(t, false, whole) then Loaded(Effects(t, false, [], whole)) else Failed
  {
    hide Process, Stream, ProcessAll, Faithful, Writable, Effects;
    LoadCommands(enc, read, ok, t, whole, tail, 0, START, false);
    InMultiIsMulti(enc, t, START, whole, 0, false);
    EffectsAre(enc, t, START, whole, 0, false);
    assert LoadFrom(read, t, tail, |Stream(enc, whole)|, ProcessAll(enc, t, START, whole, 0, false), false)
        == if read(tail).Eof? then CleanEof(ProcessAll(enc, t, START, whole, 0, false), false) else Failed;
  }

  /** A command that the server does not know stops the load, whatever comes before or after it. */
  lemma UnknownFails(enc: Command -> string, read: Reader, ok: Command -> bool, t: CommandTable, cmds: seq<Command>, c: Command, rest: string, lt: bool)
    requires Faithful(enc, read, ok) && Writable(ok, t, cmds) && ok(c) && !t.known(c)
    ensures Load(read, t, Stream(enc, cmds) + (enc(c) + rest), lt) == Failed
  {
    hide Process, Stream, ProcessAll;
    assert enc(c) + rest != "";
    LoadCommands(enc, read, ok, t, cmds, enc(c) + rest, 0, START, lt);
  }

  /** A transaction takes effect as a whole, in its place. */
  lemma TransactionRuns(enc: Command -> string, read: Reader, ok: Command -> bool, t: CommandTable,
                        a: seq<Command>, m: Command, body: seq<Command>, x: Command, b: seq<Command>, lt: bool)
    requires Faithful(enc, read, ok) && Writable(ok, t, a + [m] + body + [x] + b)
    requires Plain(t, a) && t.IsMulti(m) && Plain(t, body) && t.IsExec(x) && !t.IsMulti(x) && Plain(t, b)
    ensures Load(read, t, Stream(enc, a + [m] + body + [x] + b), lt) == Loaded(a + body + b)
  {
    var cmds := a + [m] + body + [x] + b;
    hide Faithful, Writable, Load;
    EffectsPlain(t, a, [m] + body + [x] + b);
    assert a + ([m] + body + [x] + b) == cmds;
    var rest := [m] + (body + ([x] + b));
    assert rest == [m] + body + [x] + b && rest[1..] == body + ([x] + b);
    EffectsQueued(t, [], body, [x] + b);
    assert [] + body == body && ([x] + b)[1..] == b;
    EffectsPlain(t, b, []);
    assert b + [] == b && a + (body + b) == a + body + b;
    LoadsEffects(enc, read, ok, t, cmds, lt);
  }

  lemma {:induction false} EffectsPlain(t: CommandTable, a: seq<Command>, rest: seq<Command>)
    requires Plain(t, a)
    ensures Effects(t, false, [], a + rest) == a + Effects(t, false, [], rest)
    ensures InMulti(t, false, a + rest) == InMulti(t, false, rest)
    decreases a
  {
    if a == [] {
      assert a + rest == rest;
    } else {
      assert (a + rest)[1..] == a[1..] + rest;
      EffectsPlain(t, a[1..], rest);
      assert [a[0]] + (a[1..] + Effects(t, false, [], rest)) == a + Effects(t, false, [], rest);
    }
  }

  lemma {:induction false} EffectsQueued(t: CommandTable, queue: seq<Command>, body: seq<Command>, rest: seq<Command>)
    requires Plain(t, body)
    ensures Effects(t, true, queue, body + rest) == Effects(t, true, queue + body, rest)
    ensures InMulti(t, true, body + rest) == InMulti(t, true, rest)
    decreases body
  {
    if body == [] {
      assert body + rest == rest && queue + body == queue;
    } else {
      assert (body + rest)[1..] == body[1..] + rest;
      EffectsQueued(t, queue + [body[0]], body[1..], rest);
      assert queue + [body[0]] + body[1..] == queue + body;
    }
  }

  /** What follows the whole commands in a prefix, and how the reader takes it. */
  lemma CutTail(enc: Command -> string, read: Reader, ok: Command -> bool, cmds: seq<Command>, k: nat) returns (tail: string)
    requires Faithful(enc, read, ok) && (forall i :: 0 <= i < |cmds| ==> ok(cmds[i])) && k <= |Stream(enc, cmds)|
    ensures var whole := Stream(enc, cmds[..WholeCount(enc, cmds, k)]);
            && Stream(enc, cmds)[..k] == whole + tail
            && |whole| <= k
            && read(tail) == if k == |whole| then Eof else Short
  {
    PrefixShape(enc, cmds, k);
    var j := WholeCount(enc, cmds, k);
    if j == |cmds| {
      assert cmds[..j] == cmds;
      tail := "";
    } else {
      tail := enc(cmds[j])[..k - |Stream(enc, cmds[..j])|];
    }
  }

  /** Without transactions: exactly the whole commands take effect. */
  lemma PlainPrefixLoads(enc: Command -> string, read: Reader, ok: Command -> bool, t: CommandTable, cmds: seq<Command>, k: nat)
    requires Faithful(enc, read, ok) && Writable(ok, t, cmds) && 0 < k <= |Stream(enc, cmds)| && NoMulti(t, cmds)
    ensures var whole := cmds[..WholeCount(enc, cmds, k)];
            Load(read, t, Stream(enc, cmds)[..k], true) ==
            if k == |Stream(enc, whole)| then Loaded(whole) else TruncatedTo(whole, |Stream(enc, whole)|)
  {
    var whole := cmds[..WholeCount(enc, cmds, k)];
    PrefixLoads(enc, read, ok, t, cmds, k);
    PlainDone(enc, t, START, whole, 0, true);
    assert [] + whole == whole;
  }

  /** A clean end of file inside an open MULTI cuts the file back to just before that MULTI. */
  lemma OpenMultiTruncates(enc: Command -> string, read: Reader, ok: Command -> bool, t: CommandTable,
                           head: seq<Command>, m: Command, body: seq<Command>)
    requires Faithful(enc, read, ok) && Writable(ok, t, head + [m] + body)
    requires !After(enc, t, head).multi && t.IsMulti(m) && Plain(t, body)
    ensures Load(read, t, Stream(enc, head + [m] + body), true) == TruncatedTo(After(enc, t, head).done, |Stream(enc, head)|)
  {
    LoadWholeFile(enc, read, ok, t, head + [m] + body, true);
    OpenState(enc, t, head, m, body);
  }

  lemma OpenState(enc: Command -> string, t: CommandTable, head: seq<Command>, m: Command, body: seq<Command>)
    requires !After(enc, t, head).multi && t.IsMulti(m) && Plain(t, body)
    ensures var r := After(enc, t, head + [m] + body);
            r.multi && r.done == After(enc, t, head).done && r.validBeforeMulti == |Stream(enc, head)|
  {
    ProcessAllSplits(enc, t, START, head + [m], body, 0, true);
    assert (head + [m])[..|head|] == head;
    AfterSnoc(enc, t, head + [m]);
    AfterValid(enc, t, head);
    QueuedDone(enc, t, After(enc, t, head + [m]), body, |Stream(enc, head + [m])|, true);
  }

  // ------------------------------------------------- writing on after a recovery

  /** Transactions are not nested, which is what the server writes. */
  predicate Flat(t: CommandTable, multi: bool, cmds: seq<Command>)
    decreases cmds
  {
    cmds == [] ||
    (!(multi && t.IsMulti(cmds[0])) &&
     Flat(t, if multi then !t.IsExec(cmds[0]) else t.IsMulti(cmds[0]), cmds[1..]))
  }

  /** The state of the loader as far as transactions go. */
  function InMulti(t: CommandTable, multi: bool, cmds: seq<Command>): bool
    decreases cmds
  {
    if cmds == [] then multi
    else InMulti(t, if multi then !t.IsExec(cmds[0]) else t.IsMulti(cmds[0]), cmds[1..])
  }

  lemma {:induction false} InMultiIsMulti(enc: Command -> string, t: CommandTable, ld: Loader, cmds: seq<Command>, pos: nat, lt: bool)
    ensures ProcessAll(enc, t, ld, cmds, pos, lt).multi == InMulti(t, ld.multi, cmds)
    decreases cmds
  {
    if cmds != [] {
      var end := pos + |enc(cmds[0])|;
      InMultiIsMulti(enc, t, Process(t, ld, cmds[0], end, lt), cmds[1..], end, lt);
    }
  }

  lemma PlainCons(t: CommandTable, cmds: seq<Command>)
    requires cmds != [] && Plain(t, cmds[1..])
    ensures Plain(t, cmds) <==> !t.IsMulti(cmds[0]) && !t.IsExec(cmds[0])
  {
    assert forall i :: 0 < i < |cmds| ==> cmds[i] == cmds[1..][i - 1];
  }

  /** The transaction that is still open: everything before it, its MULTI, and what it queued. */
  lemma {:induction false} OpenTransaction(t: CommandTable, multi: bool, cmds: seq<Command>) returns (i: nat)
    requires Flat(t, multi, cmds) && InMulti(t, multi, cmds) && !(multi && Plain(t, cmds))
    ensures i < |cmds| && t.IsMulti(cmds[i]) && !InMulti(t, multi, cmds[..i]) && Plain(t, cmds[i + 1..])
    decreases cmds
  {
    if cmds == [] {
      assert false;
    } else {
      var c, rest := cmds[0], cmds[1..];
      var next := if multi then !t.IsExec(c) else t.IsMulti(c);
      if next && Plain(t, rest) {
        PlainCons(t, cmds);
        i := 0;
        assert cmds[..0] == [];
      } else {
        var j := OpenTransaction(t, next, rest);
        i := j + 1;
        assert cmds[..i] == [c] + rest[..j];
        assert cmds[i + 1..] == rest[j + 1..];
      }
    }
  }

  function DoneOf(o: Outcome): seq<Command> {
    match o
    case Loaded(done) => done
    case TruncatedTo(done, _) => done
    case _ => []
  }

  /** The file as the load leaves it. */
  function Kept(f: string, o: Outcome): string {
    if o.TruncatedTo? && o.offset <= |f| then f[..o.offset] else f
  }

  /** The commands that take effect, given whether a transaction is open and what it has queued. */
  function Effects(t: CommandTable, multi: bool, queue: seq<Command>, cmds: seq<Command>): seq<Command>
    decreases cmds
  {
    if cmds == [] then []
    else if multi then
      if t.IsExec(cmds[0]) then queue + Effects(t, false, [], cmds[1..]) else Effects(t, true, queue + [cmds[0]], cmds[1..])
    else if t.IsMulti(cmds[0]) then Effects(t, true, [], cmds[1..])
    else [cmds[0]] + Effects(t, false, [], cmds[1..])
  }

  ghost predicate NoExec(t: CommandTable, cmds: seq<Command>) {
    forall i :: 0 <= i < |cmds| ==> !t.IsExec(cmds[i])
  }

  /** Outside a transaction nothing is queued, and EXEC never is. */
  ghost predicate Sound(t: CommandTable, ld: Loader) {
    (!ld.multi ==> ld.queue == []) && NoExec(t, ld.queue)
  }

  lemma {:induction false} EffectsAre(enc: Command -> string, t: CommandTable, ld: Loader, cmds: seq<Command>, pos: nat, lt: bool)
    requires Sound(t, ld)
    ensures var r := ProcessAll(enc, t, ld, cmds, pos, lt);
            Sound(t, r) && r.done == ld.done + Effects(t, ld.multi, ld.queue, cmds)
    decreases cmds
  {
    if cmds != [] {
      var end := pos + |enc(cmds[0])|;
      EffectsAre(enc, t, Process(t, ld, cmds[0], end, lt), cmds[1..], end, lt);
    }
  }

  /** The number of commands before the first EXEC. */
  function FirstExec(t: CommandTable, cmds: seq<Command>): (e: nat)
    ensures e <= |cmds|
    decreases cmds
  {
    if cmds == [] || t.IsExec(cmds[0]) then 0 else 1 + FirstExec(t, cmds[1..])
  }

  lemma {:induction false} FirstExecFirst(t: CommandTable, cmds: seq<Command>)
    ensures var e := FirstExec(t, cmds); NoExec(t, cmds[..e]) && (e < |cmds| ==> t.IsExec(cmds[e]))
    decreases cmds
  {
    if cmds != [] && !t.IsExec(cmds[0]) {
      FirstExecFirst(t, cmds[1..]);
      var e := FirstExec(t, cmds);
      assert forall i :: 0 < i < e ==> cmds[..e][i] == cmds[1..][..e - 1][i - 1];
    }
  }

  /** In an open transaction everything up to EXEC is queued, and then runs behind what was queued before. */
  lemma {:induction false} QueuedEffects(t: CommandTable, queue: seq<Command>, cmds: seq<Command>)
    ensures var e := FirstExec(t, cmds);
            Effects(t, true, queue, cmds)
            == if e == |cmds| then [] else queue + cmds[..e] + Effects(t, false, [], cmds[e + 1..])
    decreases cmds
  {
    if cmds != [] && !t.IsExec(cmds[0]) {
      var rest := cmds[1..];
      QueuedEffects(t, queue + [cmds[0]], rest);
      var e := FirstExec(t, rest);
      if e < |rest| {
        assert cmds[..e + 1] == [cmds[0]] + rest[..e] && cmds[e + 2..] == rest[e + 1..];
        assert queue + [cmds[0]] + rest[..e] == queue + cmds[..e + 1];
      }
    }
  }

  /** A transaction that was begun and never finished. */
  ghost predicate Unfinished(t: CommandTable, cmds: seq<Command>) {
    cmds != [] && t.IsMulti(cmds[0]) && NoExec(t, cmds)
  }

  /** With an EXEC to come, a transaction that has queued more runs more. */
  lemma QueueRuns(t: CommandTable, queue: seq<Command>, cmds: seq<Command>)
    ensures NoExec(t, cmds) ==> Effects(t, true, queue, cmds) == []
    ensures !NoExec(t, cmds) ==> |Effects(t, true, queue, cmds)| == |queue| + |Effects(t, true, [], cmds)|
  {
    hide Effects, FirstExec;
    QueuedEffects(t, queue, cmds);
    QueuedEffects(t, [], cmds);
    FirstExecFirst(t, cmds);
    var e := FirstExec(t, cmds);
    assert e == |cmds| ==> cmds[..e] == cmds;
  }

  /** Behind an open transaction other commands take effect, unless none would have anyway. */
  lemma {:induction false} QueuedDiffers(t: CommandTable, queue: seq<Command>, p: seq<Command>, cmds: seq<Command>)
    requires NoExec(t, queue) && NoExec(t, p)
    ensures Effects(t, true, queue + p, cmds) == p + Effects(t, false, [], cmds)
            <==> p == [] && (cmds == [] || Unfinished(t, cmds))
    decreases cmds
  {
    if cmds != [] {
      var c, rest := cmds[0], cmds[1..];
      if t.IsExec(c) {
        Rotated(t, queue, p, c, Effects(t, false, [], rest));
      } else if t.IsMulti(c) {
        QueueRuns(t, queue + p + [c], rest);
        QueueRuns(t, [], rest);
        assert NoExec(t, cmds) <==> NoExec(t, rest) by {
          NoExecCons(t, cmds);
        }
      } else {
        QueuedDiffers(t, queue, p + [c], rest);
        assert queue + (p + [c]) == queue + p + [c];
        assert p + [c] + Effects(t, false, [], rest) == p + ([c] + Effects(t, false, [], rest));
      }
    }
  }

  lemma NoExecCons(t: CommandTable, cmds: seq<Command>)
    requires cmds != [] && !t.IsExec(cmds[0])
    ensures NoExec(t, cmds) <==> NoExec(t, cmds[1..])
  {
    assert forall i :: 0 < i < |cmds| ==> cmds[i] == cmds[1..][i - 1];
  }

  /** EXEC cannot be at the end of commands none of which is EXEC. */
  lemma Rotated(t: CommandTable, queue: seq<Command>, cmds: seq<Command>, x: Command, rest: seq<Command>)
    requires NoExec(t, queue) && NoExec(t, cmds) && t.IsExec(x)
    ensures queue + cmds + rest != cmds + ([x] + rest)
  {
    var n := |cmds|;
    assert (cmds + ([x] + rest))[n] == x;
    if |queue| == 1 {
      var y := if n == 0 then queue[0] else cmds[n - 1];
      assert (queue + cmds + rest)[n] == y && !t.IsExec(y);
    }
  }

  /** A file whose transactions are all finished loads with the effects of its commands. */
  lemma LoadsEffects(enc: Command -> string, read: Reader, ok: Command -> bool, t: CommandTable, cmds: seq<Command>, lt: bool)
    requires Faithful(enc, read, ok) && Writable(ok, t, cmds) && cmds != [] && !InMulti(t, false, cmds)
    ensures Load(read, t, Stream(enc, cmds), lt) == Loaded(Effects(t, false, [], cmds))
  {
    hide Effects, Load, Process, Faithful;
    LoadWholeFile(enc, read, ok, t, cmds, lt);
    InMultiIsMulti(enc, t, START, cmds, 0, lt);
    EffectsAre(enc, t, START, cmds, 0, lt);
  }

  /** A file that ends inside a transaction is cut back to the commands before it. */
  lemma BeforeOpen(enc: Command -> string, t: CommandTable, whole: seq<Command>) returns (kept: seq<Command>)
    requires Flat(t, false, whole) && InMulti(t, false, whole)
    ensures kept <= whole && !InMulti(t, false, kept) && Stream(enc, kept) <= Stream(enc, whole)
    ensures var ld := After(enc, t, whole);
            ld.multi && ld.validBeforeMulti == |Stream(enc, kept)| && ld.done == After(enc, t, kept).done
  {
    var i := OpenTransaction(t, false, whole);
    kept := whole[..i];
    var m, body := whole[i], whole[i + 1..];
    assert whole == kept + [m] + body;
    InMultiIsMulti(enc, t, START, kept, 0, true);
    OpenState(enc, t, kept, m, body);
    StreamSplits(enc, kept, whole[i..]);
    assert whole == kept + whole[i..];
  }

  /** The commands left in the file after loading a prefix of it. */
  lemma RecoveredFile(enc: Command -> string, read: Reader, ok: Command -> bool, t: CommandTable, cmds: seq<Command>, k: nat)
    returns (kept: seq<Command>)
    requires Faithful(enc, read, ok) && Writable(ok, t, cmds) && 0 < k <= |Stream(enc, cmds)| && Flat(t, false, cmds)
    ensures var f := Stream(enc, cmds)[..k];
            var o := Load(read, t, f, true);
            var whole := cmds[..WholeCount(enc, cmds, k)];
            && Writable(ok, t, kept)
            && Kept(f, o) == Stream(enc, kept)
            && DoneOf(o) == After(enc, t, kept).done
            && InMulti(t, false, kept) == (InMulti(t, false, whole) && k != |Stream(enc, whole)|)
  {
    var whole := cmds[..WholeCount(enc, cmds, k)];
    var tail := CutTail(enc, read, ok, cmds, k);
    PrefixLoads(enc, read, ok, t, cmds, k);
    InMultiIsMulti(enc, t, START, whole, 0, true);
    if k == |Stream(enc, whole)| && InMulti(t, false, whole) {
      FlatPrefix(t, false, cmds, |whole|);
      kept := BeforeOpen(enc, t, whole);
    } else {
      kept := whole;
    }
  }

  lemma {:induction false} FlatPrefix(t: CommandTable, multi: bool, cmds: seq<Command>, n: nat)
    requires Flat(t, multi, cmds) && n <= |cmds|
    ensures Flat(t, multi, cmds[..n])
    decreases n
  {
    if n > 0 {
      FlatPrefix(t, if multi then !t.IsExec(cmds[0]) else t.IsMulti(cmds[0]), cmds[1..], n - 1);
      assert cmds[..n][1..] == cmds[1..][..n - 1];
    }
  }

  lemma Continued(enc: Command -> string, read: Reader, ok: Command -> bool, t: CommandTable, kept: seq<Command>, more: seq<Command>)
    requires Faithful(enc, read, ok) && Writable(ok, t, kept) && Writable(ok, t, more) && more != []
    ensures var ld := After(enc, t, kept);
            && Sound(t, ld)
            && DoneOf(Load(read, t, Stream(enc, kept) + Stream(enc, more), true)) == ld.done + Effects(t, ld.multi, ld.queue, more)
  {
    hide Effects, Load, Process, Faithful;
    assert Writable(ok, t, kept + more);
    StreamSplits(enc, kept, more);
    LoadWholeFile(enc, read, ok, t, kept + more, true);
    ProcessAllSplits(enc, t, START, kept, more, 0, true);
    EffectsAre(enc, t, START, kept, 0, true);
    EffectsAre(enc, t, After(enc, t, kept), more, |Stream(enc, kept)|, true);
  }

  /**
    Commands appended after the recovery of a cut file, transactions among them, have
    the effects they have by themselves if and only if the cut did not fall inside a
    command of an open transaction, or they are one transaction that is never
    finished, which has no effects anywhere. Otherwise the file keeps the MULTI, and
    what is appended is queued behind it: dropped if there is no EXEC in it, or else
    run together with the commands of the half-written transaction.
  */
  lemma AppendAfterRecovery(enc: Command -> string, read: Reader, ok: Command -> bool, t: CommandTable,
                            cmds: seq<Command>, k: nat, more: seq<Command>)
    requires Faithful(enc, read, ok) && Writable(ok, t, cmds) && 0 < k <= |Stream(enc, cmds)| && Flat(t, false, cmds)
    requires Writable(ok, t, more) && more != []
    ensures var f := Stream(enc, cmds)[..k];
            var o := Load(read, t, f, true);
            var next := Load(read, t, Kept(f, o) + Stream(enc, more), true);
            var whole := cmds[..WholeCount(enc, cmds, k)];
            DoneOf(next) == DoneOf(o) + Effects(t, false, [], more)
            <==> !(InMulti(t, false, whole) && k != |Stream(enc, whole)|) || Unfinished(t, more)
  {
    hide *;
    var kept := RecoveredFile(enc, read, ok, t, cmds, k);
    AppendedTo(enc, read, ok, t, kept, more);
  }

  lemma AppendedTo(enc: Command -> string, read: Reader, ok: Command -> bool, t: CommandTable, kept: seq<Command>, more: seq<Command>)
    requires Faithful(enc, read, ok) && Writable(ok, t, kept) && Writable(ok, t, more) && more != []
    ensures DoneOf(Load(read, t, Stream(enc, kept) + Stream(enc, more), true)) == After(enc, t, kept).done + Effects(t, false, [], more)
            <==> !InMulti(t, false, kept) || Unfinished(t, more)
  {
    hide Effects, Load, Process, After, Faithful, Unfinished, Stream;
    Continued(enc, read, ok, t, kept, more);
    var ld := After(enc, t, kept);
    assert ld.multi == InMulti(t, false, kept) by {
      AfterMulti(enc, t, kept);
    }
    if ld.multi {
      QueuedDiffers(t, ld.queue, [], more);
      assert ld.queue + [] == ld.queue;
      assert [] + Effects(t, false, [], more) == Effects(t, false, [], more);
      SamePrefix(ld.done, Effects(t, true, ld.queue, more), Effects(t, false, [], more));
    }
  }

  lemma AfterMulti(enc: Command -> string, t: CommandTable, cmds: seq<Command>)
    ensures After(enc, t, cmds).multi == InMulti(t, false, cmds)
  {
    InMultiIsMulti(enc, t, START, cmds, 0, true);
  }

  lemma SamePrefix(p: seq<Command>, a: seq<Command>, b: seq<Command>)
    ensures p + a == p + b <==> a == b
  {
    assert a == (p + a)[|p|..] && b == (p + b)[|p|..];
  }

  /** Without transactions the effects are the commands. */
  lemma {:induction false} PlainEffects(t: CommandTable, cmds: seq<Command>)
    requires NoMulti(t, cmds)
    ensures Effects(t, false, [], cmds) == cmds
    decreases cmds
  {
    if cmds != [] {
      PlainEffects(t, cmds[1..]);
    }
  }

  /** The smallest case: a MULTI and the first byte of the next command. */
  lemma AppendLost(enc: Command -> string, read: Reader, ok: Command -> bool, t: CommandTable, m: Command, c: Command)
    requires Faithful(enc, read, ok) && Writable(ok, t, [m, c]) && t.IsMulti(m) && Plain(t, [c]) && |enc(c)| >= 2
    ensures Load(read, t, enc(m) + enc(c)[..1], true) == TruncatedTo([], |enc(m)|)
    ensures DoneOf(Load(read, t, enc(m) + enc(c), true)) == []
  {
    assert Writable(ok, t, [m]) && Writable(ok, t, [c]) by {
      assert [m, c][0] == m && [m, c][1] == c;
    }
    OpenState(enc, t, [], m, []);
    assert [] + [m] + [] == [m];
    AfterValid(enc, t, [m]);
    assert Stream(enc, [m]) == enc(m) && Stream(enc, [c]) == enc(c);
    LoadCommands(enc, read, ok, t, [m], enc(c)[..1], 0, START, true);
    InMultiIsMulti(enc, t, START, [m], 0, true);
    Continued(enc, read, ok, t, [m], [c]);
  }

  // ----------------------------------------------------------- the real encoding

  const ENCODE: Command -> string := (c: Command) => Encode(c)
  const READER: Reader := (s: string) => ReadCommand(s)
  const FITS: Command -> bool := (c: Command) => Fits(c)

  /** Encode and ReadCommand fit together, so all of the above is about them. */
  lemma RealCodec()
    ensures Faithful(ENCODE, READER, FITS)
  {
    forall c: Command, rest: string | Fits(c)
      ensures Encode(c) != "" && ReadCommand(Encode(c) + rest) == Whole(c, |Encode(c)|)
    {
      CommandBack(c, rest);
    }
    forall c: Command, k: nat | Fits(c) && 0 < k < |Encode(c)|
      ensures ReadCommand(Encode(c)[..k]) == Short
    {
      CommandCut(c, k);
    }
  }

  lemma FileRoundTrip(t: CommandTable, cmds: seq<Command>, lt: bool)
    requires Writable(FITS, t, cmds) && cmds != [] && !InMulti(t, false, cmds)
    ensures Load(READER, t, Stream(ENCODE, cmds), lt) == Loaded(Effects(t, false, [], cmds))
    ensures NoMulti(t, cmds) ==> Load(READER, t, Stream(ENCODE, cmds), lt) == Loaded(cmds)
  {
    hide *;
    RealCodec();
    LoadsEffects(ENCODE, READER, FITS, t, cmds, lt);
    if NoMulti(t, cmds) {
      PlainEffects(t, cmds);
    }
  }

  /** A file that is damaged, and not just cut short, does not load, whatever aof-load-truncated says. */
  lemma DamagedFails(t: CommandTable, cmds: seq<Command>, tail: string, lt: bool)
    requires Writable(FITS, t, cmds) && ReadCommand(tail) == Bad && tail != ""
    ensures Load(READER, t, Stream(ENCODE, cmds) + tail, lt) == Failed
  {
    hide Process, Stream, ProcessAll, ReadCommand, Faithful, Writable;
    RealCodec();
    LoadCommands(ENCODE, READER, FITS, t, cmds, tail, 0, START, lt);
    assert READER(tail) == Bad;
  }

  /** An annotation between two commands changes nothing. */
  lemma AnnotationLoads(t: CommandTable, a: seq<Command>, note: string, b: seq<Command>, lt: bool)
    requires Writable(FITS, t, a) && Writable(FITS, t, b) && Plain(t, a) && Plain(t, b) && '\n' !in note && |note| + 2 <= LINE_MAX
    ensures Load(READER, t, Stream(ENCODE, a) + ("#" + note + "\n" + Stream(ENCODE, b)), lt) == Loaded(a + b)
  {
    hide Process, Stream, ProcessAll, ReadCommand, Faithful, Writable, Plain;
    RealCodec();
    var line, rest := "#" + note + "\n", Stream(ENCODE, b);
    LoadCommands(ENCODE, READER, FITS, t, a, line + rest, 0, START, lt);
    AnnotationPassed(note, rest);
    assert (line + rest)[|line|..] == rest;
    var ld := ProcessAll(ENCODE, t, START, a, 0, lt);
    var pos := |Stream(ENCODE, a)| + |line|;
    assert READER(line + rest) == Annotation(|line|);
    assert LoadFrom(READER, t, line + rest, |Stream(ENCODE, a)|, ld, lt) == LoadFrom(READER, t, rest, pos, ld, lt);
    assert rest + "" == rest;
    LoadCommands(ENCODE, READER, FITS, t, b, "", pos, ld, lt);
    BothDone(t, a, b, pos, lt);
    assert READER("") == Eof by { EndRead(); }
    assert LoadFrom(READER, t, "", pos + |rest|, ProcessAll(ENCODE, t, ld, b, pos, lt), lt) == CleanEof(ProcessAll(ENCODE, t, ld, b, pos, lt), lt);
  }

  lemma EndRead()
    ensures READER("") == Eof
  {}

  lemma BothDone(t: CommandTable, a: seq<Command>, b: seq<Command>, pos: nat, lt: bool)
    requires Plain(t, a) && Plain(t, b)
    ensures var r := ProcessAll(ENCODE, t, ProcessAll(ENCODE, t, START, a, 0, lt), b, pos, lt); !r.multi && r.done == a + b
  {
    hide Process;
    PlainDone(ENCODE, t, START, a, 0, lt);
    PlainDone(ENCODE, t, ProcessAll(ENCODE, t, START, a, 0, lt), b, pos, lt);
    assert [] + a == a;
  }

  lemma FilePrefixLoads(t: CommandTable, cmds: seq<Command>, k: nat)
    requires Writable(FITS, t, cmds) && 0 < k <= |Stream(ENCODE, cmds)|
    ensures var whole := cmds[..WholeCount(ENCODE, cmds, k)];
            Load(READER, t, Stream(ENCODE, cmds)[..k], true) ==
            if k == |Stream(ENCODE, whole)| then CleanEof(After(ENCODE, t, whole), true)
            else TruncatedTo(After(ENCODE, t, whole).done, |Stream(ENCODE, whole)|)
  {
    hide *;
    RealCodec();
    PrefixLoads(ENCODE, READER, FITS, t, cmds, k);
  }

  lemma FileAppendAfterRecovery(t: CommandTable, cmds: seq<Command>, k: nat, more: seq<Command>)
    requires Writable(FITS, t, cmds) && 0 < k <= |Stream(ENCODE, cmds)| && Flat(t, false, cmds)
    requires Writable(FITS, t, more) && more != []
    ensures var f := Stream(ENCODE, cmds)[..k];
            var o := Load(READER, t, f, true);
            var next := Load(READER, t, Kept(f, o) + Stream(ENCODE, more), true);
            var whole := cmds[..WholeCount(ENCODE, cmds, k)];
            DoneOf(next) == DoneOf(o) + Effects(t, false, [], more)
            <==> !(InMulti(t, false, whole) && k != |Stream(ENCODE, whole)|) || Unfinished(t, more)
  {
    hide *;
    RealCodec();
    AppendAfterRecovery(ENCODE, READER, FITS, t, cmds, k, more);
  }
}
