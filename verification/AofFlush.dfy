/**
  Flushing the append-only buffer (src/aof.c): what is in the file and what is still
  in the buffer, over short writes, failed writes and truncations.
*/
module AofFlush {

  /** One write(2). */
  datatype WriteResult = Wrote(n: nat) | Interrupted | Failed

  datatype Policy = Always | EverySec | No

  /** What the outside world does during one flush. */
  datatype World = World(
    writes: seq<WriteResult>,   // results of the write calls; once they are used up a call writes everything
    truncates: bool,            // ftruncate succeeds
    fsyncs: bool,               // fsync succeeds
    fsyncInProgress: bool,      // aofFsyncInProgress()
    childActive: bool,          // hasActiveChildProcess()
    now: nat                    // server.unixtime
  )

  function Zeros(n: nat): (z: string)
    ensures |z| == n
  {
    seq(n, _ => '\0')
  }

  /** A file after bytes were written at position at; a gap reads as zeros. */
  function Splice(file: string, at: nat, bytes: string): (r: string)
    ensures bytes != "" && at >= |file| ==> |r| == at + |bytes|
    ensures at == |file| ==> r == file + bytes
    ensures bytes == "" ==> r == file
    ensures at >= |file| ==> file <= r
  {
    if bytes == "" then file
    else if at > |file| then file + Zeros(at - |file|) + bytes
    else file[..at] + bytes + if at + |bytes| < |file| then file[at + |bytes|..] else ""
  }

  /** The result of aofWrite when tot of len bytes have been written. */
  function Total(writes: seq<WriteResult>, tot: nat, len: nat): (n: int)
    requires tot <= len
    ensures -1 <= n <= len
    decreases writes
  {
    if tot == len then len
    else if writes == [] then len
    else
      match writes[0]
      case Interrupted => Total(writes[1..], tot, len)
      case Failed => if tot > 0 then tot else -1
      case Wrote(k) => Total(writes[1..], if k <= len - tot then tot + k else len, len)
  }

  /** May the write be put off? Only under everysec, while an fsync runs, and not for two seconds. */
  predicate Postpones(policy: Policy, start: nat, force: bool, w: World) {
    policy == EverySec && !force && w.fsyncInProgress && (start == 0 || w.now - start < 2)
  }

  /** The file after bytes were written z bytes behind its end. */
  function Landed(file: string, z: nat, bytes: string): string {
    if bytes == "" then file else file + Zeros(z) + bytes
  }

  /**
    What decides how a session goes on: the length of the buffer, whether all is synced,
    since when a flush is put off, and how far behind the end of the file the next write goes.
  */
  datatype Digest = Digest(len: nat, synced: bool, postponed: nat, behind: nat)

  /** How a flush, or a session, ends. */
  datatype Ending = Exited | Gapped | Fine(next: Digest)

  /** What stays in the file of a buffer of len bytes. */
  function KeptOf(w: World, len: nat): nat {
    var n := Total(w.writes, 0, len);
    if n == -1 || (0 < n < len && w.truncates) then 0 else n
  }

  /** How far the offset goes, whatever stays in the file. */
  function Advance(w: World, len: nat): nat {
    var n := Total(w.writes, 0, len);
    if n == -1 then 0 else n
  }

  predicate Skips(noFsync: bool, w: World) {
    noFsync && w.childActive
  }

  /** One flush with something to write. */
  function WriteEnds(policy: Policy, noFsync: bool, append: bool, d: Digest, w: World): Ending {
    var n, kept := Total(w.writes, 0, d.len), KeptOf(w, d.len);
    if policy == Always && (n != d.len || (!w.fsyncs && !Skips(noFsync, w))) then Exited
    else if d.behind > 0 && kept > 0 then Gapped
    else Fine(Digest(d.len - kept, policy != Always || !Skips(noFsync, w), 0,
                     d.behind + if !append && 0 < n < d.len && w.truncates then n else 0))
  }

  /** One flush. */
  function FlushEnds(policy: Policy, noFsync: bool, append: bool, d: Digest, force: bool, w: World): Ending {
    if d.len == 0 then
      if policy == Always && !d.synced && !w.fsyncs && !Skips(noFsync, w) then Exited
      else Fine(d.(synced := d.synced || !Skips(noFsync, w)))
    else if Postpones(policy, d.postponed, force, w) then
      Fine(d.(postponed := if d.postponed == 0 then w.now else d.postponed))
    else
      WriteEnds(policy, noFsync, append, d, w)
  }

  /** Something that happens to the file. */
  datatype Event = Fed(bytes: string) | Flushed(force: bool, world: World)

  function EventEnds(policy: Policy, noFsync: bool, append: bool, d: Digest, e: Event): Ending {
    match e
    case Fed(bytes) => Fine(d.(len := d.len + |bytes|))
    case Flushed(force, w) => FlushEnds(policy, noFsync, append, d, force, w)
  }

  class Aof {
    var file: string            // the INCR file
    var append: bool            // opened with O_APPEND
    var offset: nat             // where a write goes otherwise
    var buf: string             // aof_buf
    var lastIncrSize: nat
    var lastIncrFsyncOffset: nat
    var currentSize: int
    var writeOk: bool           // aof_last_write_status
    var postponedStart: nat
    var lastFsync: nat
    var delayedFsync: nat
    var policy: Policy
    var noFsyncOnRewrite: bool
    ghost var fed: string       // everything ever fed to this file, and what it held when it was opened

    /** Nothing is lost, doubled or out of place. */
    ghost predicate Conserved()
      reads this
    {
      file + buf == fed && |file| == lastIncrSize && lastIncrFsyncOffset <= lastIncrSize
    }

    /** The next write goes to the end of the file. */
    predicate Aligned()
      reads this
    {
      append || offset == |file|
    }

    /** openNewIncrAofForAppend: a new empty file, without O_APPEND. */
    constructor OpenNew(policy: Policy, noFsyncOnRewrite: bool, currentSize: int)
      ensures Conserved() && Aligned() && !append && fed == "" && buf == ""
      ensures this.policy == policy && this.noFsyncOnRewrite == noFsyncOnRewrite
    {
      this.file, this.append, this.offset, this.buf := "", false, 0, "";
      this.lastIncrSize, this.lastIncrFsyncOffset, this.currentSize := 0, 0, currentSize;
      this.writeOk, this.postponedStart, this.lastFsync, this.delayedFsync := true, 0, 0, 0;
      this.policy, this.noFsyncOnRewrite, this.fed := policy, noFsyncOnRewrite, "";
    }

    /** aofOpenIfNeededOnServerStart: the last file again, with O_APPEND. */
    constructor OpenOnServerStart(contents: string, policy: Policy, noFsyncOnRewrite: bool, currentSize: int)
      ensures Conserved() && Aligned() && append && fed == contents && buf == ""
      ensures this.policy == policy && this.noFsyncOnRewrite == noFsyncOnRewrite
    {
      this.file, this.append, this.offset, this.buf := contents, true, 0, "";
      this.lastIncrSize, this.lastIncrFsyncOffset, this.currentSize := |contents|, |contents|, currentSize;
      this.writeOk, this.postponedStart, this.lastFsync, this.delayedFsync := true, 0, 0, 0;
      this.policy, this.noFsyncOnRewrite, this.fed := policy, noFsyncOnRewrite, contents;
      new;
      assert contents + "" == contents;
    }

    /** The end of feedAppendOnlyFile. */
    method Feed(bytes: string)
      modifies `buf, `fed
      ensures buf == old(buf) + bytes && fed == old(fed) + bytes
      ensures old(Conserved()) ==> Conserved()
    {
      buf := buf + bytes;
      fed := fed + bytes;
      assert file + buf == file + old(buf) + bytes;
    }

    /** One write(2) that takes n bytes of data. */
    method Write(data: string)
      modifies `file, `offset
      ensures file == Splice(old(file), if append then |old(file)| else old(offset), data)
      ensures offset == if append then old(offset) else old(offset) + |data|
    {
      if append {
        file := Splice(file, |file|, data);
      } else {
        file := Splice(file, offset, data);
        offset := offset + |data|;
      }
    }

    /** n bytes of the buffer have reached the file. */
    ghost predicate Reached(was: string, at: nat, n: nat)
      requires n <= |buf| && (append || at >= |was|)
      reads this
    {
      && file == Landed(was, if append then 0 else at - |was|, buf[..n])
      && (!append ==> offset == at + n)
    }

    /** The next n bytes of the buffer. */
    method WriteSome(tot: nat, n: nat, ghost was: string, ghost at: nat)
      requires tot + n <= |buf| && (append || at >= |was|) && Reached(was, at, tot)
      modifies `file, `offset
      ensures Reached(was, at, tot + n)
    {
      Write(buf[tot..tot + n]);
      assert buf[..tot + n] == buf[..tot] + buf[tot..tot + n];
      LandedMore(was, if append then 0 else at - |was|, buf[..tot], buf[tot..tot + n]);
    }

    /** aofWrite: -1 if nothing at all was written. */
    method AofWrite(writes: seq<WriteResult>) returns (nwritten: int)
      requires buf != "" && (append || offset >= |file|)
      modifies `file, `offset
      ensures nwritten == -1 || 0 < nwritten <= |buf|
      ensures Reached(old(file), old(offset), if nwritten == -1 then 0 else nwritten)
      ensures nwritten == Total(writes, 0, |buf|)
    {
      var tot, i := 0, 0;
      assert buf[..0] == "" && file + "" == file;
      while tot < |buf|
        invariant 0 <= tot <= |buf| && i <= |writes| && Reached(old(file), old(offset), tot)
        invariant Total(writes[i..], tot, |buf|) == Total(writes, 0, |buf|)
        decreases |writes| - i, |buf| - tot
      {
        hide Reached;
        var r := if i < |writes| then writes[i] else Wrote(|buf| - tot);
        if i < |writes| {
          assert writes[i..][1..] == writes[i + 1..];
          i := i + 1;
        }
        match r {
          case Interrupted =>
          case Failed =>
            return if tot > 0 then tot else -1;
          case Wrote(k) =>
            var n := if k <= |buf| - tot then k else |buf| - tot;
            WriteSome(tot, n, old(file), old(offset));
            tot := tot + n;
        }
      }
      return tot;
    }

    /** ftruncate(fd, aof_last_incr_size) */
    method Truncate()
      modifies `file
      ensures lastIncrSize <= |old(file)| ==> file == old(file)[..lastIncrSize]
    {
      file := if lastIncrSize <= |file| then file[..lastIncrSize] else file + Zeros(lastIncrSize - |file|);
    }

    /** Under appendfsync always an fsync that fails ends the server. */
    predicate SyncFails(w: World)
      reads this
    {
      policy == Always && !w.fsyncs && !(noFsyncOnRewrite && w.childActive)
    }

    function Digested(): Digest
      reads this
    {
      Digest(|buf|, policy != Always || lastIncrFsyncOffset == lastIncrSize, postponedStart, Behind())
    }

    /** How far behind the end of the file the next write goes. */
    function Behind(): nat
      reads this
    {
      if append || offset < |file| then 0 else offset - |file|
    }

    /** The try_fsync part of flushAppendOnlyFile. */
    method TryFsync(w: World, syncInProgress: bool) returns (exited: bool)
      requires lastIncrFsyncOffset <= lastIncrSize
      modifies `lastIncrFsyncOffset, `lastFsync
      ensures lastIncrFsyncOffset <= lastIncrSize && lastIncrFsyncOffset >= old(lastIncrFsyncOffset)
      ensures noFsyncOnRewrite && w.childActive ==> lastIncrFsyncOffset == old(lastIncrFsyncOffset)
      ensures policy == Always && !exited && !(noFsyncOnRewrite && w.childActive) ==> lastIncrFsyncOffset == lastIncrSize
      ensures exited <==> SyncFails(w)
      ensures exited ==> lastIncrFsyncOffset == old(lastIncrFsyncOffset)
    {
      exited := false;
      if noFsyncOnRewrite && w.childActive {
        return;
      }
      if policy == Always {
        if !w.fsyncs {
          return true;
        }
        lastIncrFsyncOffset := lastIncrSize;
        lastFsync := w.now;
      } else if policy == EverySec && w.now > lastFsync {
        if !syncInProgress {
          lastIncrFsyncOffset := lastIncrSize;
        }
        lastFsync := w.now;
      }
    }

    /** The decision, and when it was taken. */
    method Postpone(force: bool, w: World) returns (later: bool)
      modifies `postponedStart, `delayedFsync
      ensures later <==> Postpones(policy, old(postponedStart), force, w)
      ensures postponedStart == if later && old(postponedStart) == 0 then w.now else old(postponedStart)
      ensures !later && policy == EverySec && !force && w.fsyncInProgress ==> delayedFsync == old(delayedFsync) + 1
    {
      later := false;
      if policy == EverySec && !force && w.fsyncInProgress {
        if postponedStart == 0 {
          postponedStart := w.now;
          return true;
        } else if w.now - postponedStart < 2 {
          return true;
        }
        delayedFsync := delayedFsync + 1;
      }
    }

    /** The middle of flushAppendOnlyFile: the write, and what is done about a short one. */
    method WriteOut(w: World) returns (exited: bool, done: bool, kept: nat, truncated: bool)
      requires buf != "" && (append || offset >= |file|) && |file| == lastIncrSize
      modifies `file, `offset, `buf, `currentSize, `lastIncrSize, `writeOk, `postponedStart
      ensures done <==> Total(w.writes, 0, |old(buf)|) == |old(buf)|
      ensures exited <==> policy == Always && !done
      ensures truncated <==> 0 < Total(w.writes, 0, |old(buf)|) < |old(buf)| && w.truncates
      ensures kept == KeptOf(w, |old(buf)|) && file == Landed(old(file), old(Behind()), old(buf)[..kept])
      ensures !append ==> offset == old(offset) + Advance(w, |old(buf)|)
      ensures !exited ==> buf == old(buf)[kept..] && lastIncrSize == old(lastIncrSize) + kept && currentSize == old(currentSize) + kept
      ensures postponedStart == 0 && (done ==> writeOk)
    {
      exited, done, kept, truncated := false, false, 0, false;
      ghost var was, z, all := file, Behind(), buf;
      var nwritten := AofWrite(w.writes);
      postponedStart := 0;
      if nwritten != |buf| {
        if nwritten != -1 && w.truncates {
          LandedStart(was, z, buf[..nwritten]);
          Truncate();
          nwritten := -1;
          truncated := true;
        }
        kept := if nwritten > 0 then nwritten else 0;
        assert buf[..0] == "" && buf[0..] == buf;
        if policy == Always {
          exited := true;
          return;
        }
        writeOk := false;
        if nwritten > 0 {
          currentSize := currentSize + nwritten;
          lastIncrSize := lastIncrSize + nwritten;
          buf := buf[nwritten..];
        }
        return;
      }
      writeOk := true;
      currentSize := currentSize + nwritten;
      lastIncrSize := lastIncrSize + nwritten;
      buf := "";
      done, kept := true, nwritten;
    }

    /** flushAppendOnlyFile with nothing to write: an fsync may be due all the same. */
    method FlushEmpty(w: World) returns (exited: bool)
      requires lastIncrFsyncOffset <= lastIncrSize
      modifies `lastIncrFsyncOffset, `lastFsync
      ensures lastIncrFsyncOffset <= lastIncrSize
      ensures exited <==> old(lastIncrFsyncOffset) != lastIncrSize && SyncFails(w)
      ensures !exited && policy == Always ==>
                (lastIncrFsyncOffset == lastIncrSize <==> old(lastIncrFsyncOffset) == lastIncrSize || !(noFsyncOnRewrite && w.childActive))
    {
      exited := false;
      if (policy == EverySec && lastIncrFsyncOffset != lastIncrSize && w.now > lastFsync && !w.fsyncInProgress)
         || (policy == Always && lastIncrFsyncOffset != lastIncrSize) {
        exited := TryFsync(w, false);
      }
    }

    /** flushAppendOnlyFile once the write is not put off. */
    method FlushNow(w: World, sync: bool) returns (exited: bool, kept: nat, truncated: bool)
      requires Conserved() && (append || offset >= |file|) && buf != ""
      modifies this
      ensures fed == old(fed) && append == old(append) && policy == old(policy) && noFsyncOnRewrite == old(noFsyncOnRewrite)
      ensures exited <==> policy == Always && (Total(w.writes, 0, |old(buf)|) != |old(buf)| || SyncFails(w))
      ensures truncated <==> 0 < Total(w.writes, 0, |old(buf)|) < |old(buf)| && w.truncates
      ensures kept == KeptOf(w, |old(buf)|) && file == Landed(old(file), old(Behind()), old(buf)[..kept])
      ensures !exited ==> buf == old(buf)[kept..] && postponedStart == 0
      ensures !exited ==> (append || offset >= |file|) && currentSize - lastIncrSize == old(currentSize - lastIncrSize)
      ensures !exited ==> (Conserved() <==> old(Aligned()) || kept == 0)
      ensures policy == Always && !exited ==> buf == "" && (lastIncrFsyncOffset == lastIncrSize <==> !(noFsyncOnRewrite && w.childActive))
      ensures match WriteEnds(policy, noFsyncOnRewrite, append, old(Digested()), w)
              case Exited => exited
              case Gapped => !exited && !old(Aligned()) && kept > 0
              case Fine(d) => !exited && Digested() == d && (old(Aligned()) || kept == 0)
    {
      hide Total, Landed;
      var done;
      exited, done, kept, truncated := WriteOut(w);
      Accounted(old(fed), old(file), old(Behind()), old(buf), kept);
      if exited || !done {
        return;
      }
      exited := TryFsync(w, sync);
    }

    /**
      flushAppendOnlyFile. As long as writes go to the end of the file, the file and the
      buffer together are what was fed. A short write undone by ftruncate leaves the
      offset of a file opened without O_APPEND behind its end: the next bytes that stay
      in the file then make a gap, and nothing after that is where it should be.
    */
    method Flush(force: bool, w: World) returns (exited: bool, kept: nat, truncated: bool)
      requires Conserved() && (append || offset >= |file|)
      modifies this
      ensures fed == old(fed) && append == old(append) && policy == old(policy) && noFsyncOnRewrite == old(noFsyncOnRewrite)
      ensures !exited ==> (append || offset >= |file|) && currentSize - lastIncrSize == old(currentSize - lastIncrSize)
      ensures !exited ==> (Conserved() <==> old(Aligned()) || kept == 0)
      ensures !exited ==> kept <= |old(buf)| && buf == old(buf)[kept..]
      ensures var writes := old(buf) != "" && !Postpones(policy, old(postponedStart), force, w);
              && kept == (if writes then KeptOf(w, |old(buf)|) else 0)
              && file == Landed(old(file), old(Behind()), old(buf)[..kept])
              && (exited || kept > 0 ==> kept == KeptOf(w, |old(buf)|))
              && (truncated <==> writes && 0 < Total(w.writes, 0, |old(buf)|) < |old(buf)| && w.truncates)
      ensures old(Aligned()) ==> old(file) <= file <= fed
      ensures policy == Always && !exited ==> buf == ""
      ensures policy == Always && !exited && !(noFsyncOnRewrite && w.childActive) ==> lastIncrFsyncOffset == lastIncrSize
      ensures match FlushEnds(policy, noFsyncOnRewrite, append, old(Digested()), force, w)
              case Exited => exited
              case Gapped => !exited && !old(Aligned()) && kept > 0
              case Fine(d) => !exited && Digested() == d && (old(Aligned()) || kept == 0)
    {
      hide WriteEnds, Total, Landed, Splice, Zeros;
      exited, kept, truncated := false, 0, false;
      LandedNothing(file, Behind(), buf);
      LandedPrefix(file, buf, KeptOf(w, |buf|));
      var sync := false;
      if |buf| == 0 {
        exited := FlushEmpty(w);
        assert buf == old(buf)[0..];
        return;
      }
      if policy == EverySec {
        sync := w.fsyncInProgress;
      }
      var later := Postpone(force, w);
      if later {
        assert buf == old(buf)[0..];
        return;
      }
      exited, kept, truncated := FlushNow(w, sync);
    }

    ghost predicate Sound()
      reads this
    {
      Conserved() && (append || offset >= |file|)
    }

    /** A feed or a flush. */
    method Happens(e: Event) returns (exited: bool, gap: bool)
      requires Sound()
      modifies this
      ensures append == old(append) && policy == old(policy) && noFsyncOnRewrite == old(noFsyncOnRewrite)
      ensures fed == old(fed) + if e.Fed? then e.bytes else ""
      ensures old(Aligned()) ==> old(file) <= file <= fed
      ensures exited || gap ==> e.Flushed? && file == Landed(old(file), old(Behind()), old(buf)[..KeptOf(e.world, |old(buf)|)])
      ensures match EventEnds(policy, noFsyncOnRewrite, append, old(Digested()), e)
              case Exited => exited && !gap
              case Gapped => !exited && gap && !Conserved()
              case Fine(d) => !exited && !gap && Sound() && Digested() == d
    {
      hide FlushEnds;
      exited, gap := false, false;
      match e {
        case Fed(bytes) =>
          Feed(bytes);
        case Flushed(force, w) =>
          var aligned, kept, truncated := Aligned(), 0, false;
          exited, kept, truncated := Flush(force, w);
          gap := !exited && !aligned && kept > 0;
          assert old(fed) + "" == old(fed);
      }
    }
  }

  /** Two writes one after the other are one write. */
  lemma LandedMore(was: string, z: nat, a: string, b: string)
    ensures var once := Landed(was, z, a);
            Splice(once, |was| + z + |a|, b) == Landed(was, z, a + b) && (z == 0 ==> |once| == |was| + |a|)
  {
    var at := |was| + z + |a|;
    if b == "" {
      assert a + b == a;
    } else if a == "" {
      assert a + b == b;
      if z == 0 {
        assert Splice(was, at, b) == was + b;
        assert was + Zeros(0) == was;
      }
    } else {
      var once := was + Zeros(z) + a;
      assert Splice(once, at, b) == once + b;
      assert once + b == was + Zeros(z) + (a + b);
    }
  }

  lemma LandedStart(was: string, z: nat, bytes: string)
    ensures |was| <= |Landed(was, z, bytes)| && Landed(was, z, bytes)[..|was|] == was && Landed(was, z, "") == was
  {}

  lemma LandedNothing(was: string, z: nat, buf: string)
    ensures Landed(was, z, buf[..0]) == was && buf[0..] == buf
  {}

  lemma LandedPrefix(was: string, buf: string, kept: nat)
    requires kept <= |buf|
    ensures was <= Landed(was, 0, buf[..kept]) <= was + buf
  {}

  lemma Accounted(fed: string, file: string, z: nat, buf: string, kept: nat)
    requires kept <= |buf| && file + buf == fed
    ensures var now := Landed(file, z, buf[..kept]);
            && (now + buf[kept..] == fed <==> z == 0 || kept == 0)
            && |now| == |file| + if kept == 0 then 0 else z + kept
  {
    var now := Landed(file, z, buf[..kept]);
    if z == 0 || kept == 0 {
      assert now + buf[kept..] == file + (buf[..kept] + buf[kept..]);
    } else {
      assert |now + buf[kept..]| > |fed|;
    }
  }

  function FedBytes(events: seq<Event>): string {
    if events == [] then ""
    else
      var last := events[|events| - 1];
      FedBytes(events[..|events| - 1]) + if last.Fed? then last.bytes else ""
  }

  /** All of the events; after an exit or a gap nothing follows. */
  function Course(policy: Policy, noFsync: bool, append: bool, d: Digest, events: seq<Event>): Ending {
    if events == [] then Fine(d)
    else
      match Course(policy, noFsync, append, d, events[..|events| - 1])
      case Exited => Exited
      case Gapped => Gapped
      case Fine(d') => EventEnds(policy, noFsync, append, d', events[|events| - 1])
  }

  /**
    The file after the flush that was the last: what was flushed before it, of all that was fed,
    and what this one left there, after a gap if the offset was behind the end of the file.
  */
  ghost predicate Last(file: string, all: string, d: Digest, w: World) {
    && d.len <= |all|
    && var m := |all| - d.len; file == Landed(all[..m], d.behind, all[m..][..KeptOf(w, d.len)])
  }

  lemma LastFlush(file: string, buf: string, z: nat, d: Digest, e: Event)
    requires d.len == |buf| && d.behind == z
    ensures e.Flushed? ==> Last(Landed(file, z, buf[..KeptOf(e.world, |buf|)]), file + buf, d, e.world)
  {
    var all := file + buf;
    assert all[..|file|] == file && all[|file|..] == buf;
  }

  /**
    Any number of feeds and flushes, whatever the system calls return, up to the first
    exit or gap. Until then the file and the buffer together are what the file held and
    what was fed, and Course says exactly where that is and how it ends.
  */
  method Session(aof: Aof, events: seq<Event>) returns (exited: bool, done: nat, gap: bool)
    requires aof.Conserved() && aof.Aligned()
    modifies aof
    ensures aof.append == old(aof.append) && aof.policy == old(aof.policy) && aof.noFsyncOnRewrite == old(aof.noFsyncOnRewrite)
    ensures done <= |events| && (exited || gap <==> done < |events|)
    ensures Course(aof.policy, aof.noFsyncOnRewrite, aof.append, old(aof.Digested()), events[..done]).Fine?
    ensures var end := Course(aof.policy, aof.noFsyncOnRewrite, aof.append, old(aof.Digested()), events);
            match end
            case Exited => exited && !gap
            case Gapped => !exited && gap && !aof.Conserved()
            case Fine(d) => !exited && !gap && aof.Conserved() && aof.Digested() == d
    ensures exited || gap ==> !Course(aof.policy, aof.noFsyncOnRewrite, aof.append, old(aof.Digested()), events[..done + 1]).Fine?
    ensures exited ==> old(aof.file) <= aof.file <= old(aof.file + aof.buf) + FedBytes(events[..done])
    ensures var before := Course(aof.policy, aof.noFsyncOnRewrite, aof.append, old(aof.Digested()), events[..done]).next;
            exited || gap ==> events[done].Flushed? && Last(aof.file, old(aof.file + aof.buf) + FedBytes(events[..done]), before, events[done].world)
    ensures !exited && !gap ==> aof.file + aof.buf == old(aof.file + aof.buf) + FedBytes(events)
  {
    hide EventEnds, CutAndUndone, Undoes, Last, Landed, KeptOf;
    exited, done, gap := false, 0, false;
    ghost var start := aof.Digested();
    assert events[..0] == [];
    while done < |events|
      invariant done <= |events| && !exited && !gap && aof.Sound()
      invariant aof.append == old(aof.append) && aof.policy == old(aof.policy) && aof.noFsyncOnRewrite == old(aof.noFsyncOnRewrite)
      invariant Course(aof.policy, aof.noFsyncOnRewrite, aof.append, start, events[..done]) == Fine(aof.Digested())
      invariant aof.fed == old(aof.fed) + FedBytes(events[..done])
      invariant aof.policy == Always ==> old(aof.file) <= aof.file
    {
      assert events[..done + 1][..done] == events[..done];
      CourseEnds(aof.policy, aof.noFsyncOnRewrite, aof.append, start, events[..done]);
      EventEnding(aof.policy, aof.noFsyncOnRewrite, aof.append, aof.Digested(), events[done]);
      LastFlush(aof.file, aof.buf, aof.Behind(), aof.Digested(), events[done]);
      exited, gap := aof.Happens(events[done]);
      if exited || gap {
        CourseStays(aof.policy, aof.noFsyncOnRewrite, aof.append, start, events, done + 1);
        return;
      }
      done := done + 1;
    }
    assert events[..|events|] == events;
  }

  lemma {:induction false} CourseStays(policy: Policy, noFsync: bool, append: bool, d: Digest, events: seq<Event>, n: nat)
    requires n <= |events| && !Course(policy, noFsync, append, d, events[..n]).Fine?
    ensures Course(policy, noFsync, append, d, events) == Course(policy, noFsync, append, d, events[..n])
    decreases |events|
  {
    hide FlushEnds;
    if n == |events| {
      assert events[..n] == events;
    } else {
      var m := |events| - 1;
      assert events[..m][..n] == events[..n];
      CourseStays(policy, noFsync, append, d, events[..m], n);
    }
  }

  /** Some flush undoes a short write. */
  ghost predicate Undoes(events: seq<Event>) {
    exists i :: 0 <= i < |events| && events[i].Flushed? && CutAndUndone(events[i].world)
  }

  ghost predicate CutAndUndone(w: World) {
    w.truncates && exists len: nat :: 0 < Total(w.writes, 0, len) < len
  }

  /** There are exits under appendfsync always only, and gaps only without it, without O_APPEND and after a short write was undone. */
  lemma {:induction false} CourseEnds(policy: Policy, noFsync: bool, append: bool, d: Digest, events: seq<Event>)
    requires d.behind == 0
    ensures var end := Course(policy, noFsync, append, d, events);
            && (end.Exited? ==> policy == Always)
            && (end.Gapped? ==> policy != Always && !append && Undoes(events))
            && (end.Fine? && (policy == Always || append || !Undoes(events)) ==> end.next.behind == 0)
    decreases |events|
  {
    if events != [] {
      var n := |events| - 1;
      CourseEnds(policy, noFsync, append, d, events[..n]);
      if Undoes(events[..n]) {
        var i :| 0 <= i < n && events[..n][i].Flushed? && CutAndUndone(events[..n][i].world);
        assert events[i].Flushed? && CutAndUndone(events[i].world);
      }
      assert events[n].Flushed? && CutAndUndone(events[n].world) ==> Undoes(events);
      hide EventEnds, CutAndUndone;
      var before := Course(policy, noFsync, append, d, events[..n]);
      if before.Fine? {
        EventEnding(policy, noFsync, append, before.next, events[n]);
      }
    }
  }

  lemma EventEnding(policy: Policy, noFsync: bool, append: bool, d: Digest, e: Event)
    ensures var end := EventEnds(policy, noFsync, append, d, e);
            && (end.Exited? ==> policy == Always && e.Flushed?)
            && (end.Gapped? ==> d.behind != 0)
            && (end.Fine? && d.behind == 0 && end.next.behind != 0 ==>
                  policy != Always && !append && e.Flushed? && CutAndUndone(e.world))
  {}

  // ------------------------------------------------- what the endings mean, told by the system calls

  /** The bytes that the calls take. */
  function TakenBy(writes: seq<WriteResult>): nat {
    if writes == [] then 0 else (if writes[0].Wrote? then writes[0].n else 0) + TakenBy(writes[1..])
  }

  /** The write stops at call f: it is the first that fails, and the calls before it took less than len bytes. */
  ghost predicate StopsAt(writes: seq<WriteResult>, len: nat, f: nat) {
    && f < |writes| && writes[f].Failed? && TakenBy(writes[..f]) < len
    && forall i :: 0 <= i < f ==> !writes[i].Failed?
  }

  lemma TakenHead(writes: seq<WriteResult>, f: nat)
    requires 0 < f <= |writes|
    ensures TakenBy(writes[..f]) == (if writes[0].Wrote? then writes[0].n else 0) + TakenBy(writes[1..][..f - 1])
  {
    assert writes[..f][1..] == writes[1..][..f - 1];
  }

  /** aofWrite returns what was taken before the failure, or -1 if that is nothing. */
  lemma {:induction false} TotalStopped(writes: seq<WriteResult>, tot: nat, len: nat, f: nat)
    requires tot < len && StopsAt(writes, len - tot, f)
    ensures Total(writes, tot, len) == if tot + TakenBy(writes[..f]) > 0 then tot + TakenBy(writes[..f]) else -1
    decreases writes
  {
    if f == 0 {
      assert writes[..0] == [];
    } else {
      TakenHead(writes, f);
      var k := if writes[0].Wrote? then writes[0].n else 0;
      var rest := writes[1..];
      assert forall i :: 0 <= i < f - 1 ==> rest[i] == writes[i + 1];
      TotalStopped(rest, tot + k, len, f - 1);
    }
  }

  ghost predicate NeverStops(writes: seq<WriteResult>, room: nat) {
    forall f: nat :: !StopsAt(writes, room, f)
  }

  lemma NeverStopsLater(writes: seq<WriteResult>, room: nat, k: nat)
    requires writes != [] && NeverStops(writes, room) && !writes[0].Failed? && k == (if writes[0].Wrote? then writes[0].n else 0) < room
    ensures NeverStops(writes[1..], room - k)
  {
    var rest, left := writes[1..], room - k;
    forall f: nat
      ensures !StopsAt(rest, left, f)
    {
      StopsLater(writes, room, k, f);
    }
  }

  lemma StopsLater(writes: seq<WriteResult>, room: nat, k: nat, f: nat)
    requires writes != [] && !writes[0].Failed? && k == (if writes[0].Wrote? then writes[0].n else 0) < room
    ensures StopsAt(writes[1..], room - k, f) ==> StopsAt(writes, room, f + 1)
  {
    var rest := writes[1..];
    if StopsAt(rest, room - k, f) {
      TakenHead(writes, f + 1);
      assert forall i :: 0 < i < f + 1 ==> writes[i] == rest[i - 1];
    }
  }

  /** Without a failure in time it returns len. */
  lemma {:induction false} TotalComplete(writes: seq<WriteResult>, tot: nat, len: nat)
    requires tot < len && NeverStops(writes, len - tot)
    ensures Total(writes, tot, len) == len
    decreases writes
  {
    if writes != [] {
      assert writes[..0] == [] && !StopsAt(writes, len - tot, 0);
      var k := if writes[0].Wrote? then writes[0].n else 0;
      var rest := writes[1..];
      if tot + k < len {
        NeverStopsLater(writes, len - tot, k);
        TotalComplete(rest, tot + k, len);
      }
    }
  }

  /** A flush is put off under everysec only, unforced, while an fsync runs, and for less than two seconds. */
  ghost predicate PutOff(policy: Policy, d: Digest, force: bool, w: World) {
    d.len > 0 && policy == EverySec && !force && w.fsyncInProgress && (d.postponed != 0 ==> w.now < d.postponed + 2)
  }

  /** The fsync that is made under appendfsync always fails. */
  ghost predicate FsyncFails(noFsync: bool, w: World) {
    !w.fsyncs && (!noFsync || !w.childActive)
  }

  /** When the server exits, when there is a gap, and what is left in the buffer. */
  lemma FlushMeans(policy: Policy, noFsync: bool, append: bool, d: Digest, force: bool, w: World)
    ensures var end, n := FlushEnds(policy, noFsync, append, d, force, w), Total(w.writes, 0, d.len);
            && (end.Exited? <==> policy == Always && if d.len > 0 then n != d.len || FsyncFails(noFsync, w) else !d.synced && FsyncFails(noFsync, w))
            && (end.Gapped? <==> !end.Exited? && d.len > 0 && !PutOff(policy, d, force, w) && d.behind > 0 && n > 0 && (n == d.len || !w.truncates))
            && (end.Fine? && PutOff(policy, d, force, w) ==>
                  end.next == d.(postponed := if d.postponed == 0 then w.now else d.postponed))
            && (end.Fine? && d.len > 0 && !PutOff(policy, d, force, w) ==>
                  && end.next.len == d.len - (if n == d.len || (n > 0 && !w.truncates) then n else 0)
                  && end.next.postponed == 0)
            && (end.Fine? && d.len == 0 ==> end.next.len == 0 && end.next.postponed == d.postponed)
  {
    if d.len > 0 {
      NotZero(w.writes, 0, d.len);
    }
  }

  lemma {:induction false} NotZero(writes: seq<WriteResult>, tot: nat, len: nat)
    requires tot <= len && len > 0
    ensures Total(writes, tot, len) != 0
    decreases writes
  {
    if tot < len && writes != [] && !writes[0].Failed? {
      var k := if writes[0].Wrote? then writes[0].n else 0;
      NotZero(writes[1..], if k <= len - tot then tot + k else len, len);
    }
  }

  /**
    Under appendfsync always, if fsync is not left out during rewrites: after every flush that the
    server survives, all bytes fed so far are in the file and synced.
  */
  lemma AlwaysDurable(append: bool, d: Digest, events: seq<Event>)
    requires events != [] && events[|events| - 1].Flushed?
    ensures var end := Course(Always, false, append, d, events); end.Fine? ==> end.next.len == 0 && end.next.synced
  {
    var n := |events| - 1;
    var before := Course(Always, false, append, d, events[..n]);
    if before.Fine? {
      var e := events[n];
      FlushMeans(Always, false, append, before.next, e.force, e.world);
    }
  }

  /** Under everysec a flush two seconds after the first one that was put off writes, whether an fsync runs or not. */
  lemma EverySecWrites(noFsync: bool, append: bool, d: Digest, events: seq<Event>, force: bool, w: World)
    requires d.behind == 0 && Total(w.writes, 0, |FedBytes(events)| + d.len) == |FedBytes(events)| + d.len
    requires var before := Course(EverySec, noFsync, append, d, events);
             && before.Fine? && before.next.behind == 0 && before.next.len == |FedBytes(events)| + d.len
             && (force || !w.fsyncInProgress || (before.next.postponed != 0 && w.now >= before.next.postponed + 2))
    ensures var end := Course(EverySec, noFsync, append, d, events + [Flushed(force, w)]); end.Fine? && end.next.len == 0
  {
    var all := events + [Flushed(force, w)];
    assert all[..|events|] == events;
    var before := Course(EverySec, noFsync, append, d, events).next;
    FlushMeans(EverySec, noFsync, append, before, force, w);
  }

  /** A write cut short and undone, then a complete one: the new file starts with a zero byte nobody wrote. */
  method Gap() returns (aof: Aof)
    ensures !aof.Conserved() && aof.buf == ""
  {
    aof := new Aof.OpenNew(EverySec, false, 0);
    aof.Feed("abc");
    var cut := World([Wrote(1), Failed], true, true, false, false, 1);
    var whole := World([], true, true, false, false, 1);
    assert Total(cut.writes, 0, 3) == 1 by {
      assert cut.writes[1..] == [Failed];
    }
    var exited, kept, truncated := aof.Flush(false, cut);
    assert aof.Digested() == Digest(3, true, 0, 1);
    exited, kept, truncated := aof.Flush(false, whole);
  }
}
